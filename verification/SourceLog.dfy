/** The remote source a PredictorWatcher talks to: an ordered log of changes, and what the source
    holds for a name as of any version. */
module SourceLog {
  import opened Basics
  import opened CacheModel

  /** A change at a version: new contents, or None for a deletion; `stamp` is the deletion timestamp
      carried by the predictor that reports it. */
  datatype Change = Change(name: Name, version: int, content: Option<string>, stamp: Option<int>)

  ghost predicate Increasing(log: seq<Change>) {
    forall i, j :: 0 <= i < j < |log| ==> log[i].version < log[j].version
  }

  /** The last change of n at or below version v. */
  ghost function StateAt(log: seq<Change>, n: Name, v: int): (last: Option<Change>)
    ensures last.Some? ==> last.value in log && last.value.name == n && last.value.version <= v
    decreases |log|
  {
    if log == [] then
      None
    else
      var c := log[|log| - 1];
      if c.name == n && c.version <= v then Some(c) else StateAt(log[..|log| - 1], n, v)
  }

  /** The source holds n as of version v. */
  ghost predicate Live(log: seq<Change>, n: Name, v: int) {
    StateAt(log, n, v).Some? && StateAt(log, n, v).value.content.Some?
  }

  /** Nothing of n lies between the state at v and v itself. */
  lemma {:induction false} StateIsLast(log: seq<Change>, n: Name, v: int, c: Change)
    requires Increasing(log) && c in log && c.name == n && c.version <= v
    ensures StateAt(log, n, v).Some? && c.version <= StateAt(log, n, v).value.version
    decreases |log|
  {
    var init, last := log[..|log| - 1], log[|log| - 1];
    if !(last.name == n && last.version <= v) {
      assert c in init;
      StateIsLast(init, n, v, c);
    }
  }

  /** The change with a given version is unique. */
  lemma SameVersionSameChange(log: seq<Change>, c: Change, d: Change)
    requires Increasing(log) && c in log && d in log && c.version == d.version
    ensures c == d
  {
  }

  /** A name without changes in (v, w] has the same state at both. */
  lemma StateHolds(log: seq<Change>, n: Name, v: int, w: int)
    requires Increasing(log) && v <= w
    requires forall c :: c in log && c.name == n && c.version <= w ==> c.version <= v
    ensures StateAt(log, n, v) == StateAt(log, n, w)
  {
    var a, b := StateAt(log, n, v), StateAt(log, n, w);
    if b.Some? {
      StateIsLast(log, n, v, b.value);
      StateIsLast(log, n, w, a.value);
      SameVersionSameChange(log, a.value, b.value);
    }
  }

  /** Later changes do not alter earlier states. */
  lemma AppendKeepsState(log: seq<Change>, c: Change, n: Name, v: int)
    requires v < c.version
    ensures StateAt(log + [c], n, v) == StateAt(log, n, v)
  {
    assert (log + [c])[..|log|] == log;
  }

  /** The cached form of a change. */
  function AsEntry(c: Change): Entry<string> {
    Entry(if c.content.Some? then c.content.value else "", Some(c.version), c.stamp)
  }

  // ---------------------------------------------------------------------------
  // What the source promises
  // ---------------------------------------------------------------------------

  /** A deletion removes something: the previous change of its name is not a deletion. */
  ghost predicate DeletesLive(log: seq<Change>) {
    forall i :: 0 <= i < |log| && log[i].content.None? ==> Live(log[..i], log[i].name, log[i].version)
  }

  /** Versions increase up to the source's current version, and deletions remove something. */
  ghost predicate Wellformed(log: seq<Change>, clock: int) {
    && Increasing(log) && DeletesLive(log)
    && forall c :: c in log ==> c.version <= clock
  }

  /** Exactly the deletions carry a deletion timestamp. */
  ghost predicate StampsDeletions(log: seq<Change>) {
    forall c :: c in log ==> (c.stamp.Some? <==> c.content.None?)
  }

  lemma AppendKeepsIncreasing(log: seq<Change>, clock: int, c: Change)
    requires Increasing(log) && clock < c.version && forall d :: d in log ==> d.version <= clock
    ensures Increasing(log + [c])
  {
  }

  lemma AppendKeepsDeletesLive(log: seq<Change>, c: Change)
    requires DeletesLive(log) && (c.content.None? ==> Live(log, c.name, c.version))
    ensures DeletesLive(log + [c])
  {
    var log' := log + [c];
    forall i | 0 <= i < |log'| && log'[i].content.None? ensures Live(log'[..i], log'[i].name, log'[i].version) {
      assert log'[..i] == log[..i];
      assert log[..|log|] == log;
    }
  }

  lemma AppendKeepsWellformed(log: seq<Change>, clock: int, c: Change)
    requires Wellformed(log, clock) && clock < c.version
    requires c.content.None? ==> Live(log, c.name, clock)
    ensures Wellformed(log + [c], c.version)
  {
    StateHolds(log, c.name, clock, c.version);
    AppendKeepsIncreasing(log, clock, c);
    AppendKeepsDeletesLive(log, c);
  }

  /** When a deletion is next after version v, its name had contents from a change that v already covers. */
  lemma {:induction false} DeletionFollowsContents(log: seq<Change>, clock: int, i: int, v: int)
    requires Wellformed(log, clock) && 0 <= i < |log| && log[i].content.None?
    requires v < log[i].version && forall j :: 0 <= j < i ==> log[j].version <= v
    ensures Live(log, log[i].name, v)
  {
    var n := log[i].name;
    assert Live(log[..i], n, log[i].version);
    PrefixState(log, i, n, v);
    assert Increasing(log[..i]);
    StateHolds(log[..i], n, v, log[i].version);
  }

  /** Changes above v do not matter for the state at v. */
  lemma {:induction false} PrefixState(log: seq<Change>, i: int, n: Name, v: int)
    requires 0 <= i <= |log| && forall j :: i <= j < |log| ==> v < log[j].version
    ensures StateAt(log, n, v) == StateAt(log[..i], n, v)
    decreases |log|
  {
    if i < |log| {
      PrefixState(log[..|log| - 1], i, n, v);
      assert log[..|log| - 1][..i] == log[..i];
    } else {
      assert log[..i] == log;
    }
  }
}
