/** ModelMeshEventStream: one etcd watch per namespace, restarted when the service name or the etcd secret changes. */
module WatchManager {
  import opened Basics

  /** The etcd client in use; None before the first connection and after a failed client creation. */
  datatype Client = Client(secret: string, epoch: nat, open: bool)

  /** A cancellable watch context, identified by its namespace and the call that created it. */
  datatype Context = Context(namespace: string, service: string, epoch: nat, client: Client, root: string)

  /** namespaceWatch: `cancel` is the context its cancelFunc cancels. */
  datatype NamespaceWatch = NamespaceWatch(service: string, cancel: Option<Context>)

  /** How connectToEtcd ends. */
  datatype Connection = SecretUnreadable | ClientFailed | Connected(root: string)

  /** Crashed: the watcher goroutine dereferences a nil client. */
  datatype Outcome = Ok | Error | Crashed

  /** The stream's fields; `live` holds the contexts not yet cancelled and `calls` counts calls.
      `failed` is history: the last attempt to connect failed. */
  datatype Stream = Stream(
    controller: string, secret: string, client: Option<Client>, root: string,
    watched: map<string, NamespaceWatch>, live: set<Context>, calls: nat, failed: bool)

  /** NewModelEventStream */
  function New(namespace: string): Stream {
    Stream(namespace, "", None, "", map[namespace := NamespaceWatch("", None)], {}, 0, false)
  }

  // ---------------------------------------------------------------------------
  // The two calls
  // ---------------------------------------------------------------------------

  function Held(watched: map<string, NamespaceWatch>): set<Context> {
    set n | n in watched && watched[n].cancel.Some? :: watched[n].cancel.value
  }

  function HeldBy(w: NamespaceWatch): set<Context> {
    if w.cancel.Some? then {w.cancel.value} else {}
  }

  function ServiceOf(s: Stream, namespace: string): string {
    if namespace in s.watched then s.watched[namespace].service else ""
  }

  /** refreshWatches for one namespace. */
  function Started(s: Stream, namespace: string, service: string): NamespaceWatch
    requires s.client.Some?
  {
    NamespaceWatch(service, Some(Context(namespace, service, s.calls, s.client.value, s.root)))
  }

  /** Every watch cancelled and the client closed, as done before reconnecting. */
  function AllCancelled(s: Stream): Stream {
    s.(watched := map n | n in s.watched :: NamespaceWatch(s.watched[n].service, None),
       live := s.live - Held(s.watched),
       client := if s.client.Some? then Some(Client(s.client.value.secret, s.client.value.epoch, false)) else None)
  }

  /** Every watch started again, `namespace` for `service`. */
  function AllStarted(s: Stream, namespace: string, service: string): Stream
    requires s.client.Some?
  {
    var watched := map n | n in s.watched :: Started(s, n, if n == namespace then service else s.watched[n].service);
    s.(watched := watched, live := s.live + Held(watched))
  }

  /** An entry for the namespace, made if there is none. */
  function Known(s: Stream, namespace: string): Stream {
    s.(watched := if namespace in s.watched then s.watched else s.watched[namespace := NamespaceWatch("", None)],
       calls := s.calls + 1)
  }

  /** The secret changed: cancel every watch, connect again, start every watch. */
  function Reconnect(s: Stream, secret: string, service: string, namespace: string, connection: Connection): (Stream, Outcome) {
    var c := AllCancelled(s);
    match connection
    case SecretUnreadable => (c.(failed := true), Error)
    case ClientFailed => (c.(client := None, failed := true), Error)
    case Connected(root) =>
      var connected := c.(client := Some(Client(secret, s.calls, true)), root := root, secret := secret, failed := false);
      (AllStarted(connected, namespace, service), Ok)
  }

  function Update(s0: Stream, secret: string, service: string, namespace: string, connection: Connection): (Stream, Outcome) {
    if service == "" || secret == "" then
      (s0, Error)
    else
      var s := Known(s0, namespace);
      if secret != s.secret then
        Reconnect(s, secret, service, namespace, connection)
      else if service != s.watched[namespace].service then
        if s.client.None? then
          (s, Crashed)
        else
          var w := Started(s, namespace, service);
          (s.(watched := s.watched[namespace := w], live := s.live - HeldBy(s.watched[namespace]) + HeldBy(w)), Ok)
      else
        (s, Ok)
  }

  function Remove(s: Stream, service: string, namespace: string): Stream {
    if namespace in s.watched && s.watched[namespace].service == service then
      s.(watched := s.watched - {namespace}, live := s.live - HeldBy(s.watched[namespace]))
    else
      s
  }

  /** The stream itself, with the source's loops over its namespace map. */
  class EventStream {
    const controller: string
    var secret: string
    var client: Option<Client>
    var root: string
    var watched: map<string, NamespaceWatch>
    var live: set<Context>
    var calls: nat
    var failed: bool

    ghost function State(): Stream
      reads this
    {
      Stream(controller, secret, client, root, watched, live, calls, failed)
    }

    constructor (namespace: string)
      ensures State() == New(namespace)
    {
      controller := namespace;
      secret, client, root, live, calls, failed := "", None, "", {}, 0, false;
      watched := map[namespace := NamespaceWatch("", None)];
    }

    method CancelWatch(n: string)
      requires n in watched
      modifies this`watched, this`live
      ensures watched == old(watched)[n := NamespaceWatch(old(watched)[n].service, None)]
      ensures live == old(live) - HeldBy(old(watched)[n])
    {
      if watched[n].cancel.Some? {
        live := live - {watched[n].cancel.value};
      }
      watched := watched[n := NamespaceWatch(watched[n].service, None)];
    }

    method RefreshWatches(n: string, service: string)
      requires n in watched && client.Some?
      modifies this`watched, this`live
      ensures watched == old(watched)[n := Started(old(State()), n, service)]
      ensures live == old(live) + HeldBy(watched[n])
    {
      var context := Context(n, service, calls, client.value, root);
      live := live + {context};
      watched := watched[n := NamespaceWatch(service, Some(context))];
    }

    method CancelAll()
      modifies this`watched, this`live
      ensures watched == map n | n in old(watched) :: NamespaceWatch(old(watched)[n].service, None)
      ensures live == old(live) - Held(old(watched))
    {
      var todo := watched.Keys;
      while todo != {}
        invariant todo <= watched.Keys == old(watched).Keys
        invariant forall n :: n in watched ==>
                                watched[n] == if n in todo then old(watched)[n] else NamespaceWatch(old(watched)[n].service, None)
        invariant forall c :: c in live <==>
                              c in old(live) && forall n :: n in old(watched) && n !in todo ==> old(watched)[n].cancel != Some(c)
        decreases todo
      {
        var n :| n in todo;
        CancelWatch(n);
        todo := todo - {n};
      }
    }

    method RefreshAll(namespace: string, service: string)
      requires client.Some?
      modifies this`watched, this`live
      ensures State() == AllStarted(old(State()), namespace, service)
    {
      var todo := watched.Keys;
      while todo != {}
        invariant todo <= watched.Keys == old(watched).Keys
        invariant forall n :: n in watched ==>
                                watched[n] == if n in todo then old(watched)[n]
                                              else Started(old(State()), n,
                                                           if n == namespace then service else old(watched)[n].service)
        invariant forall c :: c in live <==>
                              c in old(live) || exists n :: n in watched && n !in todo && watched[n].cancel == Some(c)
        decreases todo
      {
        var n :| n in todo;
        ghost var before, live0 := watched, live;
        RefreshWatches(n, if n == namespace then service else watched[n].service);
        forall c
          ensures c in live <==> c in old(live) || exists m :: m in watched && m !in todo - {n} && watched[m].cancel == Some(c)
        {
          if c in live && c !in live0 {
            assert watched[n].cancel == Some(c);
          } else if c in live0 && c !in old(live) {
            var m :| m in before && m !in todo && before[m].cancel == Some(c);
            assert watched[m].cancel == Some(c);
          }
        }
        todo := todo - {n};
      }
      assert watched == AllStarted(old(State()), namespace, service).watched;
    }

    method ReconnectAll(etcdSecretName: string, serviceName: string, namespace: string, connection: Connection)
      returns (outcome: Outcome)
      modifies this
      ensures (State(), outcome) == Reconnect(old(State()), etcdSecretName, serviceName, namespace, connection)
    {
      CancelAll();
      if client.Some? {
        client := Some(Client(client.value.secret, client.value.epoch, false));
      }
      match connection
      case SecretUnreadable =>
        failed := true;
        return Error;
      case ClientFailed =>
        client, failed := None, true;
        return Error;
      case Connected(r) =>
        client, root, failed := Some(Client(etcdSecretName, calls, true)), r, false;
        secret := etcdSecretName;
        RefreshAll(namespace, serviceName);
        return Ok;
    }

    /** `connection` is how connectToEtcd ends if it is called. */
    method UpdateWatchedService(etcdSecretName: string, serviceName: string, namespace: string, connection: Connection)
      returns (outcome: Outcome)
      modifies this
      ensures (State(), outcome) == Update(old(State()), etcdSecretName, serviceName, namespace, connection)
    {
      if serviceName == "" || etcdSecretName == "" {
        return Error;
      }
      calls := calls + 1;
      if namespace !in watched {
        watched := watched[namespace := NamespaceWatch("", None)];
      }
      if etcdSecretName != secret {
        outcome := ReconnectAll(etcdSecretName, serviceName, namespace, connection);
        return;
      } else if serviceName != watched[namespace].service {
        if client.None? {
          return Crashed;
        }
        ghost var s := State();
        CancelWatch(namespace);
        RefreshWatches(namespace, serviceName);
        assert watched == s.watched[namespace := Started(s, namespace, serviceName)];
      }
      return Ok;
    }

    method RemoveWatchedService(serviceName: string, namespace: string)
      modifies this
      ensures State() == Remove(old(State()), serviceName, namespace)
    {
      if namespace in watched && watched[namespace].service == serviceName {
        var nw := watched[namespace];
        watched := watched - {namespace};
        if nw.cancel.Some? {
          live := live - {nw.cancel.value};
        }
      }
    }
  }

  // ---------------------------------------------------------------------------
  // No watch is leaked
  // ---------------------------------------------------------------------------

  /** The uncancelled contexts are exactly those the entries hold; an entry's context is for its own namespace and
      service, so there is at most one per namespace. */
  ghost predicate NoLeak(s: Stream) {
    && s.live == Held(s.watched)
    && forall n :: n in s.watched && s.watched[n].cancel.Some? ==>
                     var c := s.watched[n].cancel.value;
                     c.namespace == n && c.service == s.watched[n].service
  }

  lemma AllCancelledIsEmpty(s: Stream)
    requires NoLeak(s)
    ensures AllCancelled(s).live == {} && Held(AllCancelled(s).watched) == {} && NoLeak(AllCancelled(s))
  {
  }

  lemma KnownKeepsNoLeak(s: Stream, namespace: string)
    requires NoLeak(s)
    ensures NoLeak(Known(s, namespace))
  {
    var known := Known(s, namespace).watched;
    forall c | c in Held(s.watched) ensures c in Held(known) {
      var n :| n in s.watched && s.watched[n].cancel == Some(c);
      assert known[n] == s.watched[n];
    }
  }

  lemma UpdateKeepsNoLeak(s: Stream, secret: string, service: string, namespace: string, connection: Connection)
    requires NoLeak(s)
    ensures NoLeak(Update(s, secret, service, namespace, connection).0)
  {
    if service != "" && secret != "" {
      KnownKeepsNoLeak(s, namespace);
      var t := Known(s, namespace);
      if secret != s.secret {
        AllCancelledIsEmpty(t);
      } else if service != t.watched[namespace].service && s.client.Some? {
        ReplaceHeld(t.watched, namespace, Started(t, namespace, service));
      }
    }
  }

  /** Replacing one entry replaces its context among those held. */
  lemma ReplaceHeld(watched: map<string, NamespaceWatch>, n: string, w: NamespaceWatch)
    requires n in watched
    requires forall m :: m in watched && watched[m].cancel.Some? ==> watched[m].cancel.value.namespace == m
    ensures Held(watched[n := w]) == Held(watched) - HeldBy(watched[n]) + HeldBy(w)
  {
    var after := watched[n := w];
    forall c | c in Held(watched) - HeldBy(watched[n]) ensures c in Held(after) {
      var m :| m in watched && watched[m].cancel == Some(c);
      assert m != n && after[m] == watched[m];
    }
    if w.cancel.Some? {
      assert after[n].cancel == w.cancel;
    }
  }

  lemma RemoveKeepsNoLeak(s: Stream, service: string, namespace: string)
    requires NoLeak(s)
    ensures NoLeak(Remove(s, service, namespace))
  {
    if namespace in s.watched && s.watched[namespace].service == service {
      var after := s.watched - {namespace};
      forall c | c in s.live - HeldBy(s.watched[namespace]) ensures c in Held(after) {
        var m :| m in s.watched && s.watched[m].cancel == Some(c);
        assert after[m] == s.watched[m];
      }
    }
  }

  // ---------------------------------------------------------------------------
  // Which watches are running
  // ---------------------------------------------------------------------------

  /** A namespace with a service is watched for it, through the open client of the current secret. */
  ghost predicate Watching(s: Stream, n: string) {
    && n in s.watched && s.watched[n].cancel.Some? && s.watched[n].cancel.value in s.live
    && s.client.Some? && s.client.value.open && s.client.value.secret == s.secret
    && s.watched[n].cancel.value.client == s.client.value
  }

  ghost predicate AllWatched(s: Stream) {
    forall n :: n in s.watched && s.watched[n].service != "" ==> Watching(s, n)
  }

  /** Before any connection succeeds there is no client and no service; after that a client is open, for the current
      secret, exactly when the last attempt to connect did not fail. */
  ghost predicate Connectedness(s: Stream) {
    if s.secret == "" then
      s.client.None? && forall n :: n in s.watched ==> s.watched[n] == NamespaceWatch("", None)
    else
      && (!s.failed ==> s.client.Some? && s.client.value.open && s.client.value.secret == s.secret)
      && (s.failed ==> s.client.None? || !s.client.value.open)
  }

  datatype Call =
    | UpdateCall(secret: string, service: string, namespace: string, connection: Connection)
    | RemoveCall(service: string, namespace: string)

  function Apply(s: Stream, call: Call): Stream {
    match call
    case UpdateCall(secret, service, namespace, connection) => Update(s, secret, service, namespace, connection).0
    case RemoveCall(service, namespace) => Remove(s, service, namespace)
  }

  function After(controller: string, calls: seq<Call>): Stream {
    if calls == [] then New(controller) else Apply(After(controller, calls[..|calls| - 1]), calls[|calls| - 1])
  }

  ghost predicate Inv(s: Stream) {
    NoLeak(s) && Connectedness(s) && (!s.failed ==> AllWatched(s))
  }

  lemma UpdateKeepsWatched(s: Stream, secret: string, service: string, namespace: string, connection: Connection)
    requires Inv(s)
    ensures var s' := Update(s, secret, service, namespace, connection).0;
            Connectedness(s') && (!s'.failed ==> AllWatched(s'))
  {
    var s' := Update(s, secret, service, namespace, connection).0;
    forall n | !s'.failed && n in s'.watched && s'.watched[n].service != "" ensures Watching(s', n) {
      UpdatedIsWatched(s, secret, service, namespace, connection, n);
    }
  }

  lemma UpdatedIsWatched(s: Stream, secret: string, service: string, namespace: string, connection: Connection, n: string)
    requires Inv(s)
    requires var s' := Update(s, secret, service, namespace, connection).0;
             !s'.failed && n in s'.watched && s'.watched[n].service != ""
    ensures Watching(Update(s, secret, service, namespace, connection).0, n)
  {
    UpdateKeepsNoLeak(s, secret, service, namespace, connection);
    var s' := Update(s, secret, service, namespace, connection).0;
    if s'.watched[n].cancel.Some? {
      assert s'.watched[n].cancel.value in Held(s'.watched);
    }
    assert n in s.watched && s.watched[n].service != "" && !s.failed ==> Watching(s, n);
  }

  lemma RemoveKeepsWatched(s: Stream, service: string, namespace: string)
    requires Inv(s)
    ensures Inv(Remove(s, service, namespace))
  {
    RemoveKeepsNoLeak(s, service, namespace);
    var s' := Remove(s, service, namespace);
    forall n | !s'.failed && n in s'.watched && s'.watched[n].service != "" ensures Watching(s', n) {
      assert Watching(s, n);
      assert s'.watched[n].cancel.value in Held(s'.watched);
    }
  }

  lemma {:induction false} InvInRuns(controller: string, calls: seq<Call>)
    ensures Inv(After(controller, calls))
    decreases |calls|
  {
    if calls != [] {
      InvInRuns(controller, calls[..|calls| - 1]);
      var s := After(controller, calls[..|calls| - 1]);
      match calls[|calls| - 1]
      case UpdateCall(secret, service, namespace, connection) =>
        UpdateKeepsNoLeak(s, secret, service, namespace, connection);
        UpdateKeepsWatched(s, secret, service, namespace, connection);
      case RemoveCall(service, namespace) =>
        RemoveKeepsWatched(s, service, namespace);
    }
  }

  /** Over every sequence of calls, failed reconnects included, the uncancelled contexts are exactly those held by the
      current entries, one per namespace at most. */
  lemma NeverLeaks(controller: string, calls: seq<Call>, c: Context, d: Context)
    ensures var s := After(controller, calls);
            && s.live == Held(s.watched)
            && (c in s.live ==> c.namespace in s.watched && s.watched[c.namespace].cancel == Some(c))
            && (c in s.live && d in s.live && c.namespace == d.namespace ==> c == d)
  {
    InvInRuns(controller, calls);
  }

  /** Over every sequence of calls, a namespace with a service has a running watch for it, through the open client of the
      current secret, if and only if the last attempt to connect did not fail. */
  lemma EveryServiceIsWatched(controller: string, calls: seq<Call>, n: string)
    requires var s := After(controller, calls); n in s.watched && s.watched[n].service != ""
    ensures Watching(After(controller, calls), n) <==> !After(controller, calls).failed
  {
    InvInRuns(controller, calls);
  }

  /** A call that reports success leaves its namespace with a running watch if and only if it connected with a new secret
      or the last attempt to connect had not failed; and with an uncancelled context, running or not, exactly when the
      secret or the service name changed, or one was there already. */
  lemma UpdateWatchesExactly(s: Stream, secret: string, service: string, namespace: string, connection: Connection)
    requires Inv(s) && Update(s, secret, service, namespace, connection).1 == Ok
    ensures var s' := Update(s, secret, service, namespace, connection).0;
            && namespace in s'.watched && s'.watched[namespace].service == service
            && (Watching(s', namespace) <==> secret != s.secret || !s.failed)
            && (s'.watched[namespace].cancel.Some? <==>
                secret != s.secret || service != ServiceOf(s, namespace) ||
                (namespace in s.watched && s.watched[namespace].cancel.Some?))
  {
    UpdateKeepsNoLeak(s, secret, service, namespace, connection);
    var s' := Update(s, secret, service, namespace, connection).0;
    if s'.watched[namespace].cancel.Some? {
      assert s'.watched[namespace].cancel.value in Held(s'.watched);
    }
    if !s.failed && namespace in s.watched && s.watched[namespace].service != "" {
      assert Watching(s, namespace);
    }
  }

  /** So after a failed reconnect, going back to the old secret restarts nothing: the call reports success and no
      watch is running for any namespace. */
  lemma RevertRestartsNothing(s: Stream, secret: string, service: string, namespace: string, connection: Connection,
                              n: string, again: Connection)
    requires Inv(s) && secret != s.secret && s.secret != "" && secret != "" && service != "" && !connection.Connected?
    requires n in s.watched && s.watched[n].service != ""
    ensures var broken := Update(s, secret, service, namespace, connection).0;
            var reverted := Update(broken, s.secret, s.watched[n].service, n, again);
            reverted.1 == Ok && reverted.0.live == {} && reverted.0.watched[n].cancel == None
  {
    KnownKeepsNoLeak(s, namespace);
    AllCancelledIsEmpty(Known(s, namespace));
  }

  /** And going back with another service name than the namespace has, which may be a new one: the call crashes exactly when
      this attempt failed in creating the client or an earlier one left no client; otherwise it reports success, leaves an
      uncancelled context whose client is closed, and no watch is running. */
  lemma RevertExactly(s: Stream, secret: string, service: string, namespace: string, connection: Connection,
                      n: string, name: string, again: Connection)
    requires Inv(s) && secret != s.secret && s.secret != "" && secret != "" && service != "" && !connection.Connected?
    requires name != "" && name != ServiceOf(s, n)
    ensures var broken := Update(s, secret, service, namespace, connection).0;
            var (reverted, outcome) := Update(broken, s.secret, name, n, again);
            && outcome == (if connection == ClientFailed || s.client.None? then Crashed else Ok)
            && (outcome == Ok ==> reverted.watched[n].cancel.Some? && reverted.live == {reverted.watched[n].cancel.value})
            && !Watching(reverted, n)
  {
    KnownKeepsNoLeak(s, namespace);
    AllCancelledIsEmpty(Known(s, namespace));
    UpdateKeepsNoLeak(s, secret, service, namespace, connection);
    var broken := Update(s, secret, service, namespace, connection).0;
    assert broken.live == {};
    UpdateKeepsWatched(s, secret, service, namespace, connection);
  }

  // ---------------------------------------------------------------------------
  // The state from the history of calls
  // ---------------------------------------------------------------------------

  /** The call connects: it is complete and its secret is not the current one. */
  predicate Connects(s: Stream, call: Call) {
    call.UpdateCall? && call.service != "" && call.secret != "" && call.secret != s.secret
  }

  /** For each call, how its attempt to connect ended, if it made one. */
  ghost function Attempts(controller: string, calls: seq<Call>): (a: seq<Option<Connection>>)
    ensures |a| == |calls|
  {
    if calls == [] then
      []
    else
      var before, call := calls[..|calls| - 1], calls[|calls| - 1];
      Attempts(controller, before) + [if Connects(After(controller, before), call) then Some(call.connection) else None]
  }

  predicate Succeeded(attempt: Option<Connection>) {
    attempt.Some? && attempt.value.Connected?
  }

  ghost predicate EverConnected(a: seq<Option<Connection>>) {
    exists i :: 0 <= i < |a| && Succeeded(a[i])
  }

  ghost predicate LeftAt(a: seq<Option<Connection>>, i: int, connection: Connection) {
    0 <= i < |a| && a[i] == Some(connection) && forall j :: i < j < |a| ==> !Succeeded(a[j])
  }

  /** Some attempt ended this way since the last one that connected. */
  ghost predicate Since(a: seq<Option<Connection>>, connection: Connection) {
    exists i :: LeftAt(a, i, connection)
  }

  lemma OneMoreAttempt(a: seq<Option<Connection>>, x: Option<Connection>, connection: Connection)
    requires !connection.Connected?
    ensures Since(a + [x], connection) <==> !Succeeded(x) && (x == Some(connection) || Since(a, connection))
    ensures EverConnected(a + [x]) <==> Succeeded(x) || EverConnected(a)
  {
    var more := a + [x];
    assert more[|a|] == x;
    if i :| LeftAt(more, i, connection) && i < |a| {
      assert forall j :: i < j < |a| ==> more[j] == a[j];
      assert LeftAt(a, i, connection);
    }
    if i :| LeftAt(a, i, connection) && !Succeeded(x) {
      assert LeftAt(more, i, connection);
    }
    if x == Some(connection) {
      assert LeftAt(more, |a|, connection);
    }
    if i :| 0 <= i < |a| && Succeeded(a[i]) {
      assert Succeeded(more[i]);
    }
  }

  /** Over every sequence of calls: there is a secret exactly when some attempt has connected; there is no client exactly
      when none has or one since the last that did failed in creating it; and the last attempt failed exactly when one since
      the last that connected did. */
  lemma {:induction false} StateFromHistory(controller: string, calls: seq<Call>)
    ensures var s := After(controller, calls);
            && (s.secret != "" <==> EverConnected(Attempts(controller, calls)))
            && (s.client.None? <==> !EverConnected(Attempts(controller, calls)) || Since(Attempts(controller, calls), ClientFailed))
            && (s.failed <==> Since(Attempts(controller, calls), ClientFailed) || Since(Attempts(controller, calls), SecretUnreadable))
    decreases |calls|
  {
    if calls != [] {
      var before, call := calls[..|calls| - 1], calls[|calls| - 1];
      assert calls == before + [call];
      StateFromHistory(controller, before);
      var x := if Connects(After(controller, before), call) then Some(call.connection) else None;
      OneMoreAttempt(Attempts(controller, before), x, ClientFailed);
      OneMoreAttempt(Attempts(controller, before), x, SecretUnreadable);
    }
  }

  /** Over every sequence of calls, for any namespace: the next call starts a watcher on a nil client exactly when it brings
      the current secret and another service name, and some attempt since the last that connected failed in creating the
      client; it reports success with no watch running for its namespace exactly when it brings the current secret, some
      attempt since then failed, and it does not crash. */
  lemma NextUpdateExactly(controller: string, calls: seq<Call>, secret: string, service: string, namespace: string,
                          connection: Connection)
    requires secret != "" && service != ""
    ensures var s := After(controller, calls);
            var (s', outcome) := Update(s, secret, service, namespace, connection);
            var another, nil := service != ServiceOf(s, namespace), Since(Attempts(controller, calls), ClientFailed);
            && (outcome == Crashed <==> secret == s.secret && another && nil)
            && (outcome == Error <==> secret != s.secret && !connection.Connected?)
            && (outcome == Ok && !Watching(s', namespace) <==>
                secret == s.secret && (nil || Since(Attempts(controller, calls), SecretUnreadable)) && !(another && nil))
  {
    StateFromHistory(controller, calls);
    InvInRuns(controller, calls);
    var s := After(controller, calls);
    if Update(s, secret, service, namespace, connection).1 == Ok {
      UpdateWatchesExactly(s, secret, service, namespace, connection);
    }
  }

  /** In particular after two failures in a row of different kinds: going back crashes although the last one was only a
      secret that could not be read. */
  lemma SecondFailureCrashes()
    ensures var calls := [UpdateCall("s1", "a", "ns", Connected("root")), UpdateCall("s2", "a", "ns", ClientFailed),
                          UpdateCall("s2", "a", "ns", SecretUnreadable)];
            Update(After("ns", calls), "s1", "b", "ns", SecretUnreadable).1 == Crashed
  {
    var calls := [UpdateCall("s1", "a", "ns", Connected("root")), UpdateCall("s2", "a", "ns", ClientFailed),
                  UpdateCall("s2", "a", "ns", SecretUnreadable)];
    assert calls[..2][..1] == calls[..1] && calls[..1][..0] == [];
    assert After("ns", calls[..1]).secret == "s1";
  }
}
