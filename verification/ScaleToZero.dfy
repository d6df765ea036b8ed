/** Scaling a runtime's deployment to zero once it has had no predictors for a grace period. */
module ScaleToZero {
  import opened Basics
  import P = Placement

  type uint16 = n: nat | n < 0x10000

  const MAX_DURATION: int := 0x7FFF_FFFF_FFFF_FFFF
  const MIN_DURATION: int := -0x8000_0000_0000_0000

  /** time.Since, which saturates at the ends of the 64-bit range. */
  function Since(now: int, t: int): int {
    if now - t > MAX_DURATION then MAX_DURATION else if now - t < MIN_DURATION then MIN_DURATION else now - t
  }

  /** The parts of the configuration that matter here. */
  datatype Config = Config(scaleToZero: bool, gracePeriodSeconds: uint16, podsPerRuntime: uint16, restProxy: bool) {
    function Grace(): nat {
      gracePeriodSeconds * SECOND
    }

    /** determineReplicas: what the runtime asks for, else the configured number of pods. */
    function Configured(replicas: Option<uint16>): uint16 {
      if replicas.Some? then replicas.value else podsPerRuntime
    }
  }

  // ---------------------------------------------------------------------------
  // Looking for predictors
  // ---------------------------------------------------------------------------

  datatype Listed = Listed(namespace: string, predictor: P.Predictor)

  /** A predictor registry: what it holds, or a failure to answer. */
  datatype Registry = Holding(predictors: set<Listed>) | Failing

  /** Whether a registry holds a predictor of the runtime's namespace that the runtime supports. */
  ghost predicate Has(registry: Registry, rt: P.Runtime, name: Name, restProxy: bool) {
    registry.Holding? &&
    exists l :: l in registry.predictors && l.namespace == name.namespace && P.Supports(rt, l.predictor, restProxy, name.name)
  }

  datatype Finding = Present | Absent | Unknown

  /** What asking the registries in this order finds. */
  ghost predicate Finds(f: Finding, registries: seq<Registry>, rt: P.Runtime, name: Name, restProxy: bool) {
    match f
    case Present => exists i :: FirstAt(registries, rt, name, restProxy, i) && Has(registries[i], rt, name, restProxy)
    case Unknown => exists i :: FirstAt(registries, rt, name, restProxy, i) && registries[i].Failing?
    case Absent => forall i :: 0 <= i < |registries| ==> !registries[i].Failing? && !Has(registries[i], rt, name, restProxy)
  }

  /** No registry before i failed or had one. */
  ghost predicate FirstAt(registries: seq<Registry>, rt: P.Runtime, name: Name, restProxy: bool, i: int) {
    0 <= i < |registries| && forall j :: 0 <= j < i ==> !registries[j].Failing? && !Has(registries[j], rt, name, restProxy)
  }

  method Find(registry: Registry, rt: P.Runtime, name: Name, restProxy: bool) returns (found: bool, err: bool)
    ensures err == registry.Failing?
    ensures found <==> Has(registry, rt, name, restProxy)
  {
    if registry.Failing? {
      return false, true;
    }
    var todo := registry.predictors;
    while todo != {}
      invariant todo <= registry.predictors
      invariant forall l :: l in registry.predictors - todo ==>
                              !(l.namespace == name.namespace && P.Supports(rt, l.predictor, restProxy, name.name))
      decreases todo
    {
      var l :| l in todo;
      if l.namespace == name.namespace {
        var supported := P.RuntimeSupportsPredictor(rt, l.predictor, restProxy, name.name);
        if supported {
          return true, false;
        }
      }
      todo := todo - {l};
    }
    return false, false;
  }

  /** runtimeHasPredictors */
  method RuntimeHasPredictors(registries: seq<Registry>, rt: P.Runtime, name: Name, restProxy: bool) returns (f: Finding)
    ensures Finds(f, registries, rt, name, restProxy)
  {
    for i := 0 to |registries|
      invariant forall j :: 0 <= j < i ==> !registries[j].Failing? && !Has(registries[j], rt, name, restProxy)
    {
      var found, err := Find(registries[i], rt, name, restProxy);
      assert FirstAt(registries, rt, name, restProxy, i);
      if found || err {
        return if err then Unknown else Present;
      }
    }
    return Absent;
  }

  /** Asking finds one thing. */
  lemma OneFinding(f: Finding, registries: seq<Registry>, rt: P.Runtime, name: Name, restProxy: bool)
    requires Finds(f, registries, rt, name, restProxy)
    ensures forall g :: Finds(g, registries, rt, name, restProxy) ==> g == f
  {
  }

  /** While every registry answers, a predictor is found exactly when some registry has one. */
  lemma FindsExactly(f: Finding, registries: seq<Registry>, rt: P.Runtime, name: Name, restProxy: bool)
    requires Finds(f, registries, rt, name, restProxy)
    requires forall r :: r in registries ==> r.Holding?
    ensures f == Present <==>
            exists r, l :: r in registries && l in r.predictors && l.namespace == name.namespace &&
                           P.Supports(rt, l.predictor, restProxy, name.name)
    ensures f == Present || f == Absent
  {
    assert forall i :: 0 <= i < |registries| ==> registries[i] in registries;
    match f
    case Present =>
      var i :| FirstAt(registries, rt, name, restProxy, i) && Has(registries[i], rt, name, restProxy);
      assert registries[i] in registries;
    case Unknown =>
    case Absent =>
  }

  // ---------------------------------------------------------------------------
  // One decision
  // ---------------------------------------------------------------------------

  /** What is remembered of a runtime: nothing, that it had predictors when last checked, or since when it has had none. */
  datatype Track = Untracked | HadPredictors | FreeSince(t: int)

  datatype Decision = Replicas(count: uint16, delay: int) | NotDecided

  /** What a check leaves behind. `now` is read when the transition is noted, `later` to measure the time since. */
  function NextTrack(track: Track, f: Finding, now: int): Track {
    match f
    case Unknown => track
    case Present => HadPredictors
    case Absent =>
      match track
      case Untracked => FreeSince(ZERO_TIME)
      case HadPredictors => FreeSince(now)
      case FreeSince(_) => track
  }

  function Decide(track: Track, f: Finding, now: int, later: int, scaledUp: uint16, grace: nat): Decision {
    match f
    case Unknown => NotDecided
    case Present => Replicas(scaledUp, 0)
    case Absent =>
      var next := NextTrack(track, f, now);
      if next.FreeSince? && Since(later, next.t) < grace then Replicas(scaledUp, grace - Since(later, next.t)) else Replicas(0, 0)
  }

  class Reconciler {
    /** runtimeInfoMap: the time of the transition, None while the last check had predictors. */
    var infos: map<Name, Option<int>>

    constructor ()
      ensures infos == map[]
    {
      infos := map[];
    }

    function TrackOf(name: Name): Track
      reads this
    {
      if name !in infos then Untracked else if infos[name].None? then HadPredictors else FreeSince(infos[name].value)
    }

    /** removeRuntimeFromInfoMap */
    method RemoveRuntimeFromInfoMap(name: Name)
      modifies this
      ensures TrackOf(name) == Untracked
      ensures forall n: Name :: n != name ==> TrackOf(n) == old(TrackOf(n))
    {
      infos := infos - {name};
    }

    /** determineReplicasAndRequeueDuration */
    method DetermineReplicasAndRequeueDuration(
      config: Config, replicas: Option<uint16>, rt: P.Runtime, name: Name, registries: seq<Registry>, now: int, later: int)
      returns (d: Decision, ghost f: Finding)
      modifies this
      ensures forall n: Name :: n != name ==> TrackOf(n) == old(TrackOf(n))
      ensures config.scaleToZero ==>
                && Finds(f, registries, rt, name, config.restProxy)
                && TrackOf(name) == NextTrack(old(TrackOf(name)), f, now)
                && d == Decide(old(TrackOf(name)), f, now, later, config.Configured(replicas), config.Grace())
      // With a predictor, or with scale-to-zero off: what the runtime asks for, else the configured number of pods
      ensures !config.scaleToZero || Finds(Present, registries, rt, name, config.restProxy) ==>
                d == Replicas(if replicas.Some? then replicas.value else config.podsPerRuntime, 0)
      ensures config.scaleToZero && Finds(Present, registries, rt, name, config.restProxy) ==>
                name in infos && infos[name].None?
      // A registry that fails decides nothing and leaves the remembered transition as it was
      ensures config.scaleToZero ==> (d.NotDecided? <==> Finds(Unknown, registries, rt, name, config.restProxy))
      ensures !config.scaleToZero || d.NotDecided? ==> infos == old(infos)
      // Any decision is for none or for that many
      ensures d.Replicas? ==> d.count == 0 || d.count == if replicas.Some? then replicas.value else config.podsPerRuntime
    {
      f := Unknown;
      var scaledUp := if replicas.Some? then replicas.value else config.podsPerRuntime;
      if !config.scaleToZero {
        return Replicas(scaledUp, 0), f;
      }
      var found := RuntimeHasPredictors(registries, rt, name, config.restProxy);
      f := found;
      OneFinding(found, registries, rt, name, config.restProxy);
      if found == Unknown {
        return NotDecided, f;
      }
      if name !in infos {
        infos := infos[name := Some(ZERO_TIME)];
      }
      if found == Present {
        infos := infos[name := None];
        return Replicas(scaledUp, 0), f;
      }
      if infos[name].None? {
        infos := infos[name := Some(now)];
      }
      var grace := config.gracePeriodSeconds * SECOND;
      var elapsed := Since(later, infos[name].value);
      if elapsed < grace {
        return Replicas(scaledUp, grace - elapsed), f;
      }
      return Replicas(0, 0), f;
    }
  }

  // ---------------------------------------------------------------------------
  // Runs
  // ---------------------------------------------------------------------------

  /** What happens to one runtime: a check, or its removal. Checks while scale-to-zero is off change nothing. */
  datatype Event = Check(f: Finding, now: int, later: int) | Removed

  function After(events: seq<Event>): Track {
    if events == [] then Untracked
    else
      match events[|events| - 1]
      case Check(f, now, _) => NextTrack(After(events[..|events| - 1]), f, now)
      case Removed => Untracked
  }

  predicate Saw(e: Event, f: Finding) {
    e.Check? && e.f == f
  }

  /** Time only moves forward, and it is after the Unix epoch. */
  ghost predicate Clock(events: seq<Event>) {
    && (forall i :: 0 <= i < |events| && events[i].Check? ==> 0 <= events[i].now <= events[i].later)
    && forall i, j :: 0 <= i < j < |events| && events[i].Check? && events[j].Check? ==> events[i].later <= events[j].now
  }

  /** No predictor was seen since the runtime was first tracked, or tracked again after its removal. */
  ghost predicate NeverSeen(events: seq<Event>) {
    forall p :: 0 <= p < |events| && Saw(events[p], Present) ==> exists r :: p < r < |events| && events[r].Removed?
  }

  /** Between from and to nothing was seen and the runtime was not removed: only failed checks. */
  ghost predicate OnlyUnknown(events: seq<Event>, from: int, to: int) {
    forall j :: 0 <= from <= j < to <= |events| ==> Saw(events[j], Unknown)
  }

  ghost predicate NonePresent(events: seq<Event>, from: int) {
    forall j :: 0 <= from <= j < |events| ==> Saw(events[j], Unknown) || Saw(events[j], Absent)
  }

  /** The last check that saw a predictor. */
  ghost predicate LastPresent(events: seq<Event>, p: int) {
    0 <= p < |events| && Saw(events[p], Present) && NonePresent(events, p + 1)
  }

  /** The first predictor-free check after the last one that saw a predictor. */
  ghost predicate FirstFree(events: seq<Event>, i: int) {
    && 0 <= i < |events| && Saw(events[i], Absent)
    && exists p :: 0 <= p < i && LastPresent(events, p) && OnlyUnknown(events, p + 1, i)
  }

  lemma FirstFreeExtends(events: seq<Event>, e: Event, i: int)
    requires FirstFree(events, i) && (Saw(e, Absent) || Saw(e, Unknown))
    ensures FirstFree(events + [e], i)
  {
    var more := events + [e];
    var p :| 0 <= p < i && LastPresent(events, p) && OnlyUnknown(events, p + 1, i);
    assert more[..|events|] == events;
    assert LastPresent(more, p) && OnlyUnknown(more, p + 1, i);
  }

  lemma FirstFreeNow(events: seq<Event>, e: Event, p: int)
    requires 0 <= p < |events| && Saw(events[p], Present) && OnlyUnknown(events, p + 1, |events|) && Saw(e, Absent)
    ensures FirstFree(events + [e], |events|)
  {
    var more := events + [e];
    assert more[..|events|] == events;
    assert LastPresent(more, p) && OnlyUnknown(more, p + 1, |events|);
  }

  /** What is remembered after a run, in terms of the run. */
  ghost predicate Remembers(events: seq<Event>, track: Track) {
    match track
    case Untracked => NeverSeen(events)
    case HadPredictors => exists p :: 0 <= p < |events| && Saw(events[p], Present) && OnlyUnknown(events, p + 1, |events|)
    case FreeSince(t) => (t == ZERO_TIME && NeverSeen(events)) || exists i :: FirstFree(events, i) && events[i].now == t
  }

  lemma NeverSeenExtends(events: seq<Event>, e: Event)
    ensures e.Removed? ==> NeverSeen(events + [e])
    ensures NeverSeen(events) && !Saw(e, Present) ==> NeverSeen(events + [e])
  {
    var more := events + [e];
    if e.Removed? {
      assert more[|events|].Removed?;
    } else if NeverSeen(events) && !Saw(e, Present) {
      forall p | 0 <= p < |more| && Saw(more[p], Present) ensures exists r :: p < r < |more| && more[r].Removed? {
        assert p < |events| && more[p] == events[p];
        var r :| p < r < |events| && events[r].Removed?;
        assert more[r].Removed?;
      }
    }
  }

  lemma RemembersStep(events: seq<Event>, e: Event)
    requires Remembers(events, After(events))
    ensures Remembers(events + [e], After(events + [e]))
  {
    var more := events + [e];
    assert more[..|events|] == events && more[|events|] == e;
    NeverSeenExtends(events, e);
    match After(events)
    case Untracked =>
    case HadPredictors =>
      var p :| 0 <= p < |events| && Saw(events[p], Present) && OnlyUnknown(events, p + 1, |events|);
      if Saw(e, Absent) {
        FirstFreeNow(events, e, p);
      } else if Saw(e, Unknown) {
        assert Saw(more[p], Present) && OnlyUnknown(more, p + 1, |more|);
      }
    case FreeSince(t) =>
      if (Saw(e, Absent) || Saw(e, Unknown)) && !(t == ZERO_TIME && NeverSeen(events)) {
        var i :| FirstFree(events, i) && events[i].now == t;
        FirstFreeExtends(events, e, i);
      }
    if Saw(e, Present) {
      assert Saw(more[|events|], Present) && OnlyUnknown(more, |events| + 1, |more|);
    }
  }

  lemma {:induction false} RemembersRun(events: seq<Event>)
    ensures Remembers(events, After(events))
    decreases |events|
  {
    if events != [] {
      var n := |events| - 1;
      RemembersRun(events[..n]);
      RemembersStep(events[..n], events[n]);
      assert events[..n] + [events[n]] == events;
    }
  }

  /** There is one first predictor-free check at most, and none if no predictor was ever seen. */
  lemma FirstFreeUnique(events: seq<Event>, i: int, j: int)
    requires FirstFree(events, i)
    ensures FirstFree(events, j) ==> i == j
    ensures !NeverSeen(events)
  {
    var p :| 0 <= p < i && LastPresent(events, p) && OnlyUnknown(events, p + 1, i);
    assert Saw(events[p], Present);
    if FirstFree(events, j) {
      var q :| 0 <= q < j && LastPresent(events, q) && OnlyUnknown(events, q + 1, j);
      assert p == q;
    }
  }

  lemma TrackAfterAbsent(events: seq<Event>, e: Event)
    requires Saw(e, Absent)
    ensures var t := NextTrack(After(events), Absent, e.now);
            && t.FreeSince?
            && ((t.t == ZERO_TIME && NeverSeen(events + [e])) ||
                exists i :: FirstFree(events + [e], i) && (events + [e])[i].now == t.t)
  {
    RemembersRun(events + [e]);
    assert (events + [e])[..|events|] == events;
  }

  lemma ElapsedWithinGrace(later: int, t: int, grace: nat)
    requires grace <= MAX_DURATION && t <= later
    ensures Since(later, t) < grace <==> later - t < grace
    ensures Since(later, t) < grace ==> Since(later, t) == later - t
  {
  }

  /** What each check answers and leaves behind, over every run: with a predictor the configured replicas, at once, and the
      next predictor-free check starts the grace period; with a registry that fails nothing is decided and nothing is
      forgotten or noted; any decision is for none or for all of the configured replicas. */
  lemma ChecksAnswer(events: seq<Event>, e: Event, scaledUp: uint16, config: Config)
    requires e.Check?
    ensures var d := Decide(After(events), e.f, e.now, e.later, scaledUp, config.Grace());
            var track, track' := After(events), After(events + [e]);
            && (e.f == Present ==> d == Replicas(scaledUp, 0) && track' == HadPredictors)
            && (e.f == Unknown <==> d == NotDecided)
            && (e.f == Unknown ==> track' == track)
            && (d.Replicas? ==> d.count in {0, scaledUp})
            && (d.Replicas? && d.delay != 0 ==> e.f == Absent && d.count == scaledUp)
  {
    assert (events + [e])[..|events|] == events;
  }

  /** Over every run with a fixed grace period, a runtime with replicas configured gets none exactly when no registry has
      a predictor for it and either none was seen since tracking began or the grace period has passed since the first
      predictor-free check. */
  lemma ZeroExactly(events: seq<Event>, e: Event, scaledUp: uint16, config: Config)
    requires e.Check? && Clock(events + [e]) && scaledUp > 0
    ensures Decide(After(events), e.f, e.now, e.later, scaledUp, config.Grace()) == Replicas(0, 0) <==>
            && e.f == Absent
            && (NeverSeen(events + [e]) ||
                exists i :: FirstFree(events + [e], i) && e.later - (events + [e])[i].now >= config.gracePeriodSeconds * SECOND)
  {
    if e.f == Absent {
      var more := events + [e];
      var grace := config.Grace();
      TrackAfterAbsent(events, e);
      var t := NextTrack(After(events), Absent, e.now).t;
      assert more[|events|] == e;
      if exists i :: FirstFree(more, i) {
        var i :| FirstFree(more, i);
        FirstFreeUnique(more, i, i);
        forall j ensures FirstFree(more, j) ==> i == j {
          FirstFreeUnique(more, i, j);
        }
        assert more[i].now <= e.later;
        ElapsedWithinGrace(e.later, t, grace);
      }
    }
  }

  /** Every other predictor-free check keeps the replicas and asks to be called again after a delay of at most the grace
      period, which ends at one deadline however often the check is made. */
  lemma SameDeadline(events: seq<Event>, e: Event, scaledUp: uint16, config: Config)
    requires Saw(e, Absent) && Clock(events + [e])
    requires Decide(After(events), e.f, e.now, e.later, scaledUp, config.Grace()) != Replicas(0, 0)
    ensures var d := Decide(After(events), e.f, e.now, e.later, scaledUp, config.Grace());
            && d.Replicas? && d.count == scaledUp && 0 < d.delay <= config.gracePeriodSeconds * SECOND
            && exists i :: FirstFree(events + [e], i) &&
                           e.later + d.delay == (events + [e])[i].now + config.gracePeriodSeconds * SECOND
  {
    var more := events + [e];
    TrackAfterAbsent(events, e);
    var t := NextTrack(After(events), Absent, e.now).t;
    assert more[|events|] == e;
    assert Since(e.later, ZERO_TIME) >= config.Grace();
    var i :| FirstFree(more, i) && more[i].now == t;
    assert more[i].now <= e.later;
    ElapsedWithinGrace(e.later, t, config.Grace());
  }
}
