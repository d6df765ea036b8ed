/** Which namespaces the event stream watches, for which services and under which root, from the history of its calls. */
module ServiceHistory {
  import opened Basics
  import opened WatchManager

  // ---------------------------------------------------------------------------
  // Removing a service
  // ---------------------------------------------------------------------------

  /** After any sequence of calls, removing a service takes away the namespace's entry exactly when it is for that service,
      together with its context, and changes nothing else. */
  lemma RemoveExactly(controller: string, calls: seq<Call>, service: string, n: string)
    ensures var s, s' := After(controller, calls), After(controller, calls + [RemoveCall(service, n)]);
            && (n in s'.watched <==> n in s.watched && s.watched[n].service != service)
            && (n !in s'.watched ==> forall c :: c in s'.live ==> c.namespace != n)
            && (forall c: Context :: c.namespace != n || n in s'.watched ==> (c in s'.live <==> c in s.live))
            && (forall m :: m != n ==> (m in s'.watched <==> m in s.watched))
            && (forall m :: m in s'.watched ==> s'.watched[m] == s.watched[m])
            && s' == s.(watched := s'.watched, live := s'.live)
  {
    assert (calls + [RemoveCall(service, n)])[..|calls|] == calls;
    InvInRuns(controller, calls);
    InvInRuns(controller, calls + [RemoveCall(service, n)]);
  }

  // ---------------------------------------------------------------------------
  // The entries
  // ---------------------------------------------------------------------------

  /** A complete update for n. */
  predicate IsFor(call: Call, n: string) {
    call.UpdateCall? && call.namespace == n && call.service != "" && call.secret != ""
  }

  /** Call i is such an update and reported success. */
  ghost predicate Took(controller: string, calls: seq<Call>, n: string, i: int) {
    && 0 <= i < |calls| && IsFor(calls[i], n)
    && Update(After(controller, calls[..i]), calls[i].secret, calls[i].service, n, calls[i].connection).1 == Ok
  }

  /** Call i is the last such update, and the service it brought has not been removed since. */
  ghost predicate Serves(controller: string, calls: seq<Call>, n: string, i: int) {
    && Took(controller, calls, n, i)
    && forall j :: i < j < |calls| ==> !Took(controller, calls, n, j) && calls[j] != RemoveCall(calls[i].service, n)
  }

  ghost predicate Served(controller: string, calls: seq<Call>, n: string) {
    exists i :: Serves(controller, calls, n, i)
  }

  /** Call i, or the start for the controller's own namespace when i is -1, made an entry without a service, and none has
      taken effect nor has "" been removed since. */
  ghost predicate Blank(controller: string, calls: seq<Call>, n: string, i: int) {
    && -1 <= i < |calls| && !Took(controller, calls, n, i)
    && (if i == -1 then n == controller else IsFor(calls[i], n) && !Served(controller, calls[..i], n))
    && forall j :: i < j < |calls| ==> !Took(controller, calls, n, j) && calls[j] != RemoveCall("", n)
  }

  /** What an update does to the entry of any namespace. */
  lemma UpdateEntry(s: Stream, secret: string, service: string, namespace: string, connection: Connection, n: string)
    ensures var (s', outcome) := Update(s, secret, service, namespace, connection);
            if service != "" && secret != "" && n == namespace then
              n in s'.watched && s'.watched[n].service == if outcome == Ok then service else ServiceOf(s, n)
            else
              (n in s'.watched <==> n in s.watched) && (n in s.watched ==> s'.watched[n].service == s.watched[n].service)
  {
  }

  lemma TookBefore(controller: string, calls: seq<Call>, call: Call, n: string, i: int)
    requires i < |calls|
    ensures Took(controller, calls + [call], n, i) <==> Took(controller, calls, n, i)
  {
    if 0 <= i {
      assert (calls + [call])[..i] == calls[..i];
    }
  }

  lemma ServesStep(controller: string, calls: seq<Call>, call: Call, n: string, i: int)
    requires i < |calls|
    ensures Serves(controller, calls + [call], n, i) <==>
            Serves(controller, calls, n, i) && !Took(controller, calls + [call], n, |calls|) && call != RemoveCall(calls[i].service, n)
  {
    var more := calls + [call];
    forall j | j < |calls| ensures Took(controller, more, n, j) <==> Took(controller, calls, n, j) {
      TookBefore(controller, calls, call, n, j);
    }
    assert more[|calls|] == call && forall j :: 0 <= j < |calls| ==> more[j] == calls[j];
  }

  lemma BlankStep(controller: string, calls: seq<Call>, call: Call, n: string, i: int)
    requires i < |calls|
    ensures Blank(controller, calls + [call], n, i) <==>
            Blank(controller, calls, n, i) && !Took(controller, calls + [call], n, |calls|) && call != RemoveCall("", n)
  {
    var more := calls + [call];
    forall j | j < |calls| ensures Took(controller, more, n, j) <==> Took(controller, calls, n, j) {
      TookBefore(controller, calls, call, n, j);
    }
    assert more[|calls|] == call && forall j :: 0 <= j < |calls| ==> more[j] == calls[j];
    assert 0 <= i ==> more[..i] == calls[..i];
  }

  /** The state matches the history. */
  ghost predicate Recorded(controller: string, calls: seq<Call>, n: string) {
    var s := After(controller, calls);
    && (n in s.watched && s.watched[n].service != "" <==> Served(controller, calls, n))
    && (forall i :: Serves(controller, calls, n, i) ==> n in s.watched && s.watched[n].service == calls[i].service)
    && (n in s.watched && s.watched[n].service == "" <==> exists i :: Blank(controller, calls, n, i))
  }

  lemma RecordedAtStart(controller: string, n: string)
    ensures Recorded(controller, [], n)
  {
    if n == controller {
      assert Blank(controller, [], n, -1);
    }
  }

  /** A call that takes effect for n. */
  lemma RecordTaking(controller: string, calls: seq<Call>, call: Call, n: string)
    requires Took(controller, calls + [call], n, |calls|)
    ensures Recorded(controller, calls + [call], n)
  {
    var more := calls + [call];
    assert more[..|calls|] == calls && more[|calls|] == call;
    UpdateEntry(After(controller, calls), call.secret, call.service, n, call.connection, n);
    assert Serves(controller, more, n, |calls|);
    forall i | Serves(controller, more, n, i) ensures i == |calls| {
    }
    forall i ensures !Blank(controller, more, n, i) {
    }
  }

  /** The history of n after a call that does not take effect for it. */
  lemma HistoryStep(controller: string, calls: seq<Call>, call: Call, n: string)
    requires !Took(controller, calls + [call], n, |calls|)
    ensures forall i :: Serves(controller, calls + [call], n, i) <==>
                        Serves(controller, calls, n, i) && call != RemoveCall(calls[i].service, n)
    ensures (exists i :: Blank(controller, calls + [call], n, i)) <==>
            || (call != RemoveCall("", n) && exists i :: Blank(controller, calls, n, i))
            || (IsFor(call, n) && !Served(controller, calls, n))
  {
    var more := calls + [call];
    assert more[..|calls|] == calls && more[|calls|] == call;
    forall i ensures Serves(controller, more, n, i) <==> Serves(controller, calls, n, i) && call != RemoveCall(calls[i].service, n) {
      if i < |calls| {
        ServesStep(controller, calls, call, n, i);
      }
    }
    forall i | i < |calls| ensures Blank(controller, more, n, i) <==> Blank(controller, calls, n, i) && call != RemoveCall("", n) {
      BlankStep(controller, calls, call, n, i);
    }
    assert Blank(controller, more, n, |calls|) <==> IsFor(call, n) && !Served(controller, calls, n);
    if call != RemoveCall("", n) && exists i :: Blank(controller, calls, n, i) {
      var i :| Blank(controller, calls, n, i);
      assert Blank(controller, more, n, i);
    }
  }

  lemma RecordOther(controller: string, calls: seq<Call>, call: Call, n: string)
    requires Recorded(controller, calls, n) && !Took(controller, calls + [call], n, |calls|)
    ensures Recorded(controller, calls + [call], n)
  {
    var more := calls + [call];
    assert more[..|calls|] == calls && more[|calls|] == call;
    HistoryStep(controller, calls, call, n);
    var s, s' := After(controller, calls), After(controller, more);
    if call.UpdateCall? {
      UpdateEntry(s, call.secret, call.service, call.namespace, call.connection, n);
      if i :| Serves(controller, calls, n, i) {
        assert Serves(controller, more, n, i);
      }
    } else if Served(controller, calls, n) {
      var i :| Serves(controller, calls, n, i);
      assert Serves(controller, more, n, i) <==> call != RemoveCall(calls[i].service, n);
    }
  }

  /** After any sequence of calls, for any namespace: it has an entry for a service exactly when some update for it reported
      success, none has since, and that service has not been removed since, and then the service is that update's; and an
      entry without a service exactly when one was made, by an update that did not succeed or at the start, and neither a
      success nor a removal of "" came since.  Calls for other namespaces, reconnects included, do not matter. */
  lemma {:induction false} EntriesFromHistory(controller: string, calls: seq<Call>, n: string)
    ensures Recorded(controller, calls, n)
    decreases |calls|
  {
    if calls == [] {
      RecordedAtStart(controller, n);
    } else {
      var before, call := calls[..|calls| - 1], calls[|calls| - 1];
      assert calls == before + [call];
      EntriesFromHistory(controller, before, n);
      if Took(controller, calls, n, |before|) {
        RecordTaking(controller, before, call, n);
      } else {
        RecordOther(controller, before, call, n);
      }
    }
  }

  // ---------------------------------------------------------------------------
  // The contexts
  // ---------------------------------------------------------------------------

  /** Attempt i is the last that connected. */
  ghost predicate LastConnected(a: seq<Option<Connection>>, i: int) {
    0 <= i < |a| && Succeeded(a[i]) && forall j :: i < j < |a| ==> !Succeeded(a[j])
  }

  /** Uncancelled contexts are under the current root and secret, and none is newer than the last call. */
  ghost predicate Rooted(s: Stream) {
    forall c :: c in s.live ==> c.root == s.root && c.client.secret == s.secret && c.epoch <= s.calls
  }

  lemma StepRooted(s: Stream, call: Call)
    requires Inv(s) && Rooted(s) && (s.client.Some? ==> s.client.value.secret == s.secret)
    ensures Rooted(Apply(s, call))
    ensures Apply(s, call).client.Some? ==> Apply(s, call).client.value.secret == Apply(s, call).secret
  {
    if call.UpdateCall? && Connects(s, call) {
      KnownKeepsNoLeak(s, call.namespace);
      AllCancelledIsEmpty(Known(s, call.namespace));
    }
  }

  lemma {:induction false} RootedInRuns(controller: string, calls: seq<Call>)
    ensures var s := After(controller, calls);
            Rooted(s) && (s.client.Some? ==> s.client.value.secret == s.secret)
    decreases |calls|
  {
    if calls != [] {
      RootedInRuns(controller, calls[..|calls| - 1]);
      InvInRuns(controller, calls[..|calls| - 1]);
      StepRooted(After(controller, calls[..|calls| - 1]), calls[|calls| - 1]);
    }
  }

  /** The root and the secret are those of the last connection. */
  ghost predicate LastRoot(s: Stream, a: seq<Option<Connection>>) {
    if EverConnected(a) then exists i :: LastConnected(a, i) && s.root == a[i].value.root else s.root == ""
  }

  lemma {:induction false} RootIsLast(controller: string, calls: seq<Call>)
    ensures LastRoot(After(controller, calls), Attempts(controller, calls))
    decreases |calls|
  {
    if calls != [] {
      var before, call := calls[..|calls| - 1], calls[|calls| - 1];
      RootIsLast(controller, before);
      var a, more, s := Attempts(controller, before), Attempts(controller, calls), After(controller, before);
      var x := if Connects(s, call) then Some(call.connection) else None;
      assert more == a + [x] && more[|a|] == x;
      OneMoreAttempt(a, x, ClientFailed);
      if Succeeded(x) {
        assert LastConnected(more, |a|);
      } else if EverConnected(a) {
        var i :| LastConnected(a, i) && s.root == a[i].value.root;
        assert LastConnected(more, i);
      }
    }
  }

  /** After any sequence of calls every uncancelled context is under the root of the last connection that succeeded. */
  lemma ContextsUseLastRoot(controller: string, calls: seq<Call>, c: Context)
    requires c in After(controller, calls).live
    ensures exists i :: LastConnected(Attempts(controller, calls), i) && c.root == Attempts(controller, calls)[i].value.root
  {
    RootedInRuns(controller, calls);
    RootIsLast(controller, calls);
    StateFromHistory(controller, calls);
    InvInRuns(controller, calls);
    assert c in Held(After(controller, calls).watched);
  }

  lemma {:induction false} CallsGrow(controller: string, calls: seq<Call>, k: nat)
    requires k <= |calls|
    ensures After(controller, calls[..k]).calls <= After(controller, calls).calls
    decreases |calls|
  {
    if k == |calls| {
      assert calls[..k] == calls;
    } else {
      var before := calls[..|calls| - 1];
      CallsGrow(controller, before, k);
      assert before[..k] == calls[..k];
    }
  }

  /** After any sequence of calls, an update that reports success keeps the namespace's context exactly when it brings the
      current secret and service; otherwise it starts one that has not been there before, for that namespace and service. */
  lemma RestartsExactly(controller: string, calls: seq<Call>, secret: string, service: string, n: string, connection: Connection)
    requires Update(After(controller, calls), secret, service, n, connection).1 == Ok
    ensures var s := After(controller, calls);
            var s' := Update(s, secret, service, n, connection).0;
            if n in s.watched && secret == s.secret && service == s.watched[n].service then
              s'.watched[n] == s.watched[n]
            else
              s'.watched[n].cancel.Some? &&
              var c := s'.watched[n].cancel.value;
              && c in s'.live && c.namespace == n && c.service == service
              && forall k :: 0 <= k <= |calls| ==> c !in After(controller, calls[..k]).live
  {
    forall k | 0 <= k <= |calls| ensures forall c :: c in After(controller, calls[..k]).live ==> c.epoch <= After(controller, calls).calls {
      RootedInRuns(controller, calls[..k]);
      CallsGrow(controller, calls, k);
    }
    InvInRuns(controller, calls);
    var s := After(controller, calls);
    UpdateKeepsNoLeak(s, secret, service, n, connection);
    var s' := Update(s, secret, service, n, connection).0;
    if s'.watched[n].cancel.Some? {
      assert s'.watched[n].cancel.value in Held(s'.watched);
    }
  }
}
