/** The status a predictor shows: model-mesh's report of a vmodel, decoded and merged into what was shown before. */
module PredictorStatus {
  import opened Basics

  // ---------------------------------------------------------------------------
  // What model-mesh reports
  // ---------------------------------------------------------------------------

  /** ModelStatusInfo_ModelStatus; Other stands for NOT_FOUND, UNKNOWN and numbers outside the enum. */
  datatype Loading = NotLoaded | BeingLoaded | IsLoaded | LoadingFailed | Other

  /** VModelStatusInfo_VModelStatus, likewise. */
  datatype Definition = Defined | Transitioning | TransitionFailed | OtherDefinition

  /** ModelCopyInfo; `time` is in milliseconds, 0 when unset. */
  datatype Copy = Copy(location: string, status: Loading, time: nat)

  datatype Model = Model(status: Loading, errors: seq<string>, copies: seq<Option<Copy>>)

  datatype VModel = VModel(
    status: Definition, activeId: string, targetId: string, active: Option<Model>, target: Option<Model>)

  // ---------------------------------------------------------------------------
  // What the status shows
  // ---------------------------------------------------------------------------

  /** NoState and the other nullary "No" values are the empty strings of their types. */
  datatype ModelState = NoState | Pending | Standby | LoadingState | LoadedState | FailedToLoad

  datatype Transition = NoTransition | UpToDate | InProgress | BlockedByFailedLoad | InvalidSpec

  datatype Reason =
    NoReason | ModelLoadFailed | RuntimeUnhealthy | NoSupportingRuntime | RuntimeNotRecognized | InvalidPredictorSpec

  datatype Failure = Failure(location: string, reason: Reason, message: string, modelId: string, time: Option<int>)

  datatype Fields = Fields(
    available: bool, transition: Transition, active: ModelState, target: ModelState, failure: Option<Failure>,
    http: string, grpc: string, totalCopies: nat, failedCopies: nat)

  datatype Endpoints = Endpoints(grpc: string, http: string)

  predicate IsUnhealthy(failure: Option<Failure>) {
    failure.Some? && failure.value.reason == RuntimeUnhealthy
  }

  predicate Waiting(s: Fields) {
    IsUnhealthy(s.failure)
  }

  /** The formula `Available` is assigned from. */
  predicate Serves(active: ModelState, failure: Option<Failure>) {
    active != NoState && active != FailedToLoad && !IsUnhealthy(failure)
  }

  // ---------------------------------------------------------------------------
  // Decoding one model's report
  // ---------------------------------------------------------------------------

  // In pieces, because the verifier looks into short literals only
  const NO_HOME := "There are no running " + "instances that meet " + "the label requirements " + "of type "
  const NO_RUNTIME := "[_no_runtime]"

  datatype Decoded = Decoded(state: ModelState, reason: Reason, message: string)

  function StateOf(status: Loading): ModelState {
    match status
    case NotLoaded => Standby
    case BeingLoaded => LoadingState
    case IsLoaded => LoadedState
    case LoadingFailed => FailedToLoad
    case Other => NoState
  }

  function TransitionOf(status: Definition): Transition {
    match status
    case Defined => UpToDate
    case Transitioning => InProgress
    case TransitionFailed => BlockedByFailedLoad
    case OtherDefinition => NoTransition
  }

  predicate HasSuffix(s: string, suffix: string) {
    |suffix| <= |s| && s[|s| - |suffix|..] == suffix
  }

  lemma NoOverlap(prefix: string, suffix: string, s: string)
    requires prefix <= s && HasSuffix(s, suffix) && suffix != [] && suffix[0] !in prefix
    ensures |prefix| + |suffix| <= |s|
  {
    var k := |s| - |suffix|;
    assert s[k] == s[k..][0] == suffix[0];
    assert forall i :: 0 <= i < |prefix| ==> s[i] == prefix[i] && s[i] in prefix;
  }

  lemma NoBracket()
    ensures '[' !in NO_HOME
  {
  }

  /** The suffix starts with a character the prefix lacks, so the two cannot overlap and the three characters read
      after the prefix are always there. */
  lemma ThreeMoreCharacters(message: string)
    requires NO_HOME <= message && HasSuffix(message, NO_RUNTIME)
    ensures |NO_HOME| + 3 <= |message|
  {
    NoBracket();
    NoOverlap(NO_HOME, NO_RUNTIME, message);
  }

  function DecodeFailure(message: string): Decoded {
    if !(NO_HOME <= message) then
      Decoded(FailedToLoad, ModelLoadFailed, message)
    else if !HasSuffix(message, NO_RUNTIME) then
      Decoded(LoadingState, RuntimeUnhealthy, "Waiting for supporting runtime Pod to become available")
    else
      ThreeMoreCharacters(message);
      if message[|NO_HOME|..|NO_HOME| + 3] == "rt:" then
        Decoded(FailedToLoad, RuntimeNotRecognized, "Specified runtime name not recognized")
      else
        Decoded(FailedToLoad, NoSupportingRuntime, "No ServingRuntime supports specified model type and/or protocol")
  }

  /** decodeModelState */
  function Decode(model: Option<Model>): Decoded {
    if model.None? then
      Decoded(Pending, NoReason, "")
    else
      var failed := model.value.errors != [];
      var message := if failed then model.value.errors[0] else "";
      if model.value.status == LoadingFailed then
        DecodeFailure(message)
      else
        Decoded(StateOf(model.value.status), if failed then ModelLoadFailed else NoReason, message)
  }

  // ---------------------------------------------------------------------------
  // Copies
  // ---------------------------------------------------------------------------

  /** How many reported copies there are, and how many with a given status. */
  function CopyCount(copies: seq<Option<Copy>>): nat {
    if copies == [] then 0
    else CopyCount(copies[..|copies| - 1]) + if copies[|copies| - 1].Some? then 1 else 0
  }

  function CopiesIn(copies: seq<Option<Copy>>, status: Loading): nat {
    if copies == [] then 0
    else
      var last := copies[|copies| - 1];
      CopiesIn(copies[..|copies| - 1], status) + if last.Some? && last.value.status == status then 1 else 0
  }

  function CopiesOf(model: Option<Model>): seq<Option<Copy>> {
    if model.Some? then model.value.copies else []
  }

  predicate IsFailed(copy: Option<Copy>) {
    copy.Some? && copy.value.status == LoadingFailed
  }

  /** The first copy that failed to load. */
  function FirstFailed(copies: seq<Option<Copy>>): (r: Option<Copy>)
    ensures r.None? <==> forall c :: c in copies ==> !IsFailed(c)
    ensures r.Some? ==> exists i :: 0 <= i < |copies| && copies[i] == r && IsFailed(r) &&
                                    forall j :: 0 <= j < i ==> !IsFailed(copies[j])
  {
    if copies == [] then None
    else if IsFailed(copies[0]) then copies[0]
    else
      var r := FirstFailed(copies[1..]);
      assert r.Some? ==> forall i :: 0 <= i < |copies| - 1 ==> copies[1..][i] == copies[i + 1];
      r
  }

  /** countModelCopyStates: adds a model's copies to the loading, loaded, failed and total counts. */
  method CountModelCopyStates(model: Option<Model>, counts: array<nat>)
    requires counts.Length == 4
    modifies counts
    ensures counts[0] == old(counts[0]) + CopiesIn(CopiesOf(model), BeingLoaded)
    ensures counts[1] == old(counts[1]) + CopiesIn(CopiesOf(model), IsLoaded)
    ensures counts[2] == old(counts[2]) + CopiesIn(CopiesOf(model), LoadingFailed)
    ensures counts[3] == old(counts[3]) + CopyCount(CopiesOf(model))
  {
    if model.None? {
      return;
    }
    var copies := model.value.copies;
    for i := 0 to |copies|
      invariant counts[0] == old(counts[0]) + CopiesIn(copies[..i], BeingLoaded)
      invariant counts[1] == old(counts[1]) + CopiesIn(copies[..i], IsLoaded)
      invariant counts[2] == old(counts[2]) + CopiesIn(copies[..i], LoadingFailed)
      invariant counts[3] == old(counts[3]) + CopyCount(copies[..i])
    {
      assert copies[..i + 1][..i] == copies[..i];
      if copies[i].Some? {
        match copies[i].value.status {
          case BeingLoaded => counts[0] := counts[0] + 1;
          case IsLoaded => counts[1] := counts[1] + 1;
          case LoadingFailed => counts[2] := counts[2] + 1;
          case _ =>
        }
        counts[3] := counts[3] + 1;
      }
    }
    assert copies[..|copies|] == copies;
  }

  // ---------------------------------------------------------------------------
  // The merged status
  // ---------------------------------------------------------------------------

  /** The model the predictor is heading for. */
  function Target(v: VModel): Option<Model> {
    if v.activeId == v.targetId then v.active else v.target
  }

  /** Copies are ignored when the failure is not about loading a copy. */
  function Counted(model: Option<Model>): seq<Option<Copy>> {
    if Decode(model).reason in {NoReason, ModelLoadFailed} then CopiesOf(model) else []
  }

  /** The copies behind the shown counts: the active model's and, when it is another model, the target's. */
  function Copies(v: VModel): seq<Option<Copy>> {
    Counted(v.active) + if v.activeId == v.targetId then [] else Counted(v.target)
  }

  /** Whether the recorded failure time is at most 20 seconds old. */
  predicate Recent(last: Option<Failure>, now: int) {
    last.Some? && last.value.time.Some? && now - last.value.time.value <= 20 * SECOND
  }

  function NextFailure(last: Option<Failure>, v: VModel, now: int): Option<Failure> {
    var model := Target(v);
    if model.None? || model.value.status == IsLoaded then
      None
    else
      var d := Decode(model);
      match d.reason
      case NoReason => if IsUnhealthy(last) then last else None
      case ModelLoadFailed =>
        var copy := FirstFailed(model.value.copies);
        var time := if copy.Some? && copy.value.time != 0 then Some(copy.value.time * 1_000_000) else None;
        Some(Failure(if copy.Some? then copy.value.location else "", d.reason, d.message, v.targetId, time))
      case _ =>
        Some(Failure("", d.reason, d.message, v.targetId, Some(if Recent(last, now) then last.value.time.value else now)))
  }

  function NextTransition(v: VModel): Transition {
    if v.status == TransitionFailed && Target(v).Some? && Target(v).value.status == BeingLoaded then InProgress
    else TransitionOf(v.status)
  }

  function NextTargetState(last: ModelState, v: VModel): ModelState {
    if v.activeId == v.targetId then NoState
    else if v.target.None? then last
    else Decode(v.target).state
  }

  function NextActiveState(last: ModelState, v: VModel): ModelState {
    if Decode(v.active).state == NoState then last else Decode(v.active).state
  }

  /** The status after a report; with an invalid spec the transition and failure are left alone. */
  function Update(s: Fields, v: VModel, now: int, e: Endpoints, validSpec: bool): Fields {
    var active := NextActiveState(s.active, v);
    var failure := if validSpec then NextFailure(s.failure, v, now) else s.failure;
    Fields(
      Serves(active, failure), if validSpec then NextTransition(v) else s.transition, active, NextTargetState(s.target, v),
      failure, e.http, e.grpc, CopyCount(Copies(v)), CopiesIn(Copies(v), LoadingFailed))
  }

  /** The same but for `available`. */
  predicate SameButAvailable(s: Fields, t: Fields) {
    s.(available := t.available) == t
  }

  lemma {:induction false} CountsAdd(a: seq<Option<Copy>>, b: seq<Option<Copy>>)
    ensures CopyCount(a + b) == CopyCount(a) + CopyCount(b)
    ensures CopiesIn(a + b, LoadingFailed) == CopiesIn(a, LoadingFailed) + CopiesIn(b, LoadingFailed)
    decreases |b|
  {
    if b == [] {
      assert a + b == a;
    } else {
      assert (a + b)[..|a + b| - 1] == a + b[..|b| - 1];
      CountsAdd(a, b[..|b| - 1]);
    }
  }

  class Status {
    var available: bool
    var transition: Transition
    var active: ModelState
    var target: ModelState
    var failure: Option<Failure>
    var http: string
    var grpc: string
    var totalCopies: nat
    var failedCopies: nat

    ghost function Value(): Fields
      reads this
    {
      Fields(available, transition, active, target, failure, http, grpc, totalCopies, failedCopies)
    }

    /** setStatusFailureInfo */
    method SetStatusFailureInfo(info: Option<Failure>) returns (changed: bool)
      modifies this`failure
      ensures failure == info && (changed <==> info != old(failure))
    {
      if info == failure {
        return false;
      }
      failure := info;
      return true;
    }

    /** The model states and copy counts. */
    method UpdateStates(v: VModel, counts: array<nat>) returns (changed: bool)
      requires counts.Length == 4 && counts[2] == counts[3] == 0
      modifies this`active, this`target, counts
      ensures active == NextActiveState(old(active), v) && target == NextTargetState(old(target), v)
      ensures changed <==> active != old(active) || target != old(target)
      ensures counts[2] == CopiesIn(Copies(v), LoadingFailed) && counts[3] == CopyCount(Copies(v))
    {
      changed := false;
      var d := Decode(v.active);
      if d.state != NoState && active != d.state {
        active := d.state;
        changed := true;
      }
      var targetBefore := target;
      if d.reason == NoReason || d.reason == ModelLoadFailed {
        CountModelCopyStates(v.active, counts);
      }
      assert counts[2] == CopiesIn(Counted(v.active), LoadingFailed) && counts[3] == CopyCount(Counted(v.active));
      CountsAdd(Counted(v.active), if v.activeId == v.targetId then [] else Counted(v.target));
      if v.activeId == v.targetId {
        target := NoState;
      } else if v.target.Some? {
        var t := Decode(v.target);
        target := t.state;
        if t.reason == NoReason || t.reason == ModelLoadFailed {
          CountModelCopyStates(v.target, counts);
        }
      }
      if target != targetBefore {
        changed := true;
      }
    }

    /** The failure to show, with the loop that looks for the copy that failed. */
    method FailureInfo(v: VModel, now: int) returns (info: Option<Failure>)
      ensures info == NextFailure(failure, v, now)
    {
      var model := Target(v);
      if model.None? || model.value.status == IsLoaded {
        return None;
      }
      var d := Decode(model);
      if d.reason == NoReason {
        return if IsUnhealthy(failure) then failure else None;
      }
      if d.reason != ModelLoadFailed {
        var stale := failure.None? || failure.value.time.None? || now - failure.value.time.value > 20 * SECOND;
        return Some(Failure("", d.reason, d.message, v.targetId, if stale then Some(now) else failure.value.time));
      }
      var copies := model.value.copies;
      var location, time := "", None;
      var i := 0;
      while i < |copies|
        invariant 0 <= i <= |copies|
        invariant location == "" && time.None?
        invariant FirstFailed(copies) == FirstFailed(copies[i..])
      {
        if copies[i].Some? && copies[i].value.status == LoadingFailed {
          location := copies[i].value.location;
          if copies[i].value.time != 0 {
            time := Some(copies[i].value.time * 1_000_000);
          }
          break;
        }
        i := i + 1;
      }
      return Some(Failure(location, d.reason, d.message, v.targetId, time));
    }

    method UpdateTransitionAndFailure(v: VModel, now: int) returns (changed: bool)
      modifies this`transition, this`failure
      ensures transition == NextTransition(v) && failure == NextFailure(old(failure), v, now)
      ensures changed <==> transition != old(transition) || failure != old(failure)
    {
      changed := false;
      var ts := TransitionOf(v.status);
      if ts == BlockedByFailedLoad && Target(v).Some? && Target(v).value.status == BeingLoaded {
        ts := InProgress;
      }
      var info := FailureInfo(v, now);
      if transition != ts {
        transition := ts;
        changed := true;
      }
      var failureChanged := SetStatusFailureInfo(info);
      changed := changed || failureChanged;
    }

    method UpdateEndpointsAndCounts(e: Endpoints, failed: nat, total: nat) returns (changed: bool)
      modifies this`http, this`grpc, this`failedCopies, this`totalCopies
      ensures grpc == e.grpc && http == e.http && failedCopies == failed && totalCopies == total
      ensures changed <==> grpc != old(grpc) || http != old(http) ||
                           failedCopies != old(failedCopies) || totalCopies != old(totalCopies)
    {
      changed := false;
      if grpc != e.grpc || http != e.http {
        grpc, http := e.grpc, e.http;
        changed := true;
      }
      if failed != failedCopies || total != totalCopies {
        failedCopies, totalCopies := failed, total;
        changed := true;
      }
    }

    /** updatePredictorStatusFromVModel: `changed` exactly when a field other than `available` differs from entry. */
    method UpdateFromVModel(v: VModel, now: int, e: Endpoints, validSpec: bool) returns (changed: bool)
      modifies this
      ensures Value() == Update(old(Value()), v, now, e, validSpec)
      ensures changed <==> !SameButAvailable(old(Value()), Value())
    {
      var counts := new nat[4](_ => 0);
      changed := UpdateStates(v, counts);
      if validSpec {
        var c := UpdateTransitionAndFailure(v, now);
        changed := changed || c;
      }
      available := Serves(active, failure);
      var c := UpdateEndpointsAndCounts(e, counts[2], counts[3]);
      changed := changed || c;
    }
  }

  // ---------------------------------------------------------------------------
  // What is shown, field by field, in terms of the report
  // ---------------------------------------------------------------------------

  /** The first reported error. */
  function FirstError(model: Model): string {
    if model.errors == [] then "" else model.errors[0]
  }

  /** The load failed because no running pod has the labels the model's type requires. */
  predicate Homeless(model: Model) {
    model.status == LoadingFailed && NO_HOME <= FirstError(model)
  }

  /** And no runtime at all has them. */
  predicate Unsupported(model: Model) {
    Homeless(model) && HasSuffix(FirstError(model), "[_no_runtime]")
  }

  /** A reported model shows as this state. */
  ghost predicate Shows(model: Model, state: ModelState) {
    match state
    case Standby => model.status == NotLoaded
    case LoadedState => model.status == IsLoaded
    case LoadingState => model.status == BeingLoaded || (Homeless(model) && !Unsupported(model))
    case FailedToLoad => model.status == LoadingFailed && (!Homeless(model) || Unsupported(model))
    case _ => false
  }

  /** A load that failed for want of a running pod shows as loading; other reported states show as themselves. */
  lemma DecodedShows(model: Model, state: ModelState)
    requires state != NoState
    ensures Decode(Some(model)).state == state <==> Shows(model, state)
    ensures Decode(Some(model)).state == NoState <==> model.status == Other
  {
  }

  /** For every previous status and report: the active state shown is Pending exactly when there is no active model, and any
      other state exactly when the active model shows as that; a status that is not recognised keeps what was shown. */
  lemma ActiveShownExactly(s: Fields, v: VModel, now: int, e: Endpoints, validSpec: bool, state: ModelState)
    ensures Update(s, v, now, e, validSpec).active == state <==>
            || (v.active.None? && state == Pending)
            || (v.active.Some? && v.active.value.status != Other && Shows(v.active.value, state))
            || (v.active.Some? && v.active.value.status == Other && s.active == state)
  {
    if v.active.Some? && state != NoState {
      DecodedShows(v.active.value, state);
    }
  }

  /** The target state shown is empty exactly when the target is the active model, or has a status that is not recognised, or
      is missing from the report and was shown empty before; a missing target keeps what was shown. */
  lemma TargetShownExactly(s: Fields, v: VModel, now: int, e: Endpoints, validSpec: bool, state: ModelState)
    ensures Update(s, v, now, e, validSpec).target == state <==>
            if v.activeId == v.targetId then state == NoState
            else if v.target.None? then s.target == state
            else if v.target.value.status == Other then state == NoState
            else Shows(v.target.value, state)
  {
    if v.target.Some? && state != NoState {
      DecodedShows(v.target.value, state);
    }
  }

  /** The transition shown: with a valid spec the report's, except that a failed one whose target is loading again is in
      progress; with an invalid spec as before. */
  lemma TransitionShownExactly(s: Fields, v: VModel, now: int, e: Endpoints)
    ensures var t := Update(s, v, now, e, true).transition;
            var target := if v.activeId == v.targetId then v.active else v.target;
            var reloading := target.Some? && target.value.status == BeingLoaded;
            && (t == UpToDate <==> v.status == Defined)
            && (t == InProgress <==> v.status == Transitioning || (v.status == TransitionFailed && reloading))
            && (t == BlockedByFailedLoad <==> v.status == TransitionFailed && !reloading)
            && (t == NoTransition <==> v.status == OtherDefinition)
    ensures Update(s, v, now, e, false).transition == s.transition && Update(s, v, now, e, false).failure == s.failure
  {
  }

  ghost function Positions(copies: seq<Option<Copy>>): set<int> {
    set i | 0 <= i < |copies| && copies[i].Some?
  }

  ghost function PositionsIn(copies: seq<Option<Copy>>, status: Loading): set<int> {
    set i | 0 <= i < |copies| && copies[i].Some? && copies[i].value.status == status
  }

  lemma OneMorePosition(init: set<int>, all: set<int>, n: int, counts: bool)
    requires n !in init && all == (if counts then init + {n} else init)
    ensures |all| == |init| + if counts then 1 else 0
  {
  }

  lemma {:induction false} CountsPositions(copies: seq<Option<Copy>>)
    ensures CopyCount(copies) == |Positions(copies)|
    decreases |copies|
  {
    if copies != [] {
      var init, last := copies[..|copies| - 1], copies[|copies| - 1];
      CountsPositions(init);
      OneMorePosition(Positions(init), Positions(copies), |init|, last.Some?);
    }
  }

  lemma {:induction false} CountsPositionsIn(copies: seq<Option<Copy>>, status: Loading)
    ensures CopiesIn(copies, status) == |PositionsIn(copies, status)|
    decreases |copies|
  {
    if copies != [] {
      var init, last := copies[..|copies| - 1], copies[|copies| - 1];
      CountsPositionsIn(init, status);
      PositionsInAppend(init, last, status);
      assert copies == init + [last];
      OneMorePosition(PositionsIn(init, status), PositionsIn(copies, status), |init|, last.Some? && last.value.status == status);
    }
  }

  lemma PositionsInAppend(init: seq<Option<Copy>>, last: Option<Copy>, status: Loading)
    ensures PositionsIn(init + [last], status) ==
            if last.Some? && last.value.status == status then PositionsIn(init, status) + {|init|} else PositionsIn(init, status)
  {
  }

  /** The positions at which a model reports a copy, or a failed one.  None count when its load failed for want of a pod. */
  ghost function CopiesShown(model: Option<Model>): nat {
    if model.Some? && !Homeless(model.value) then |Positions(model.value.copies)| else 0
  }

  ghost function FailedShown(model: Option<Model>): nat {
    if model.Some? && !Homeless(model.value) then |PositionsIn(model.value.copies, LoadingFailed)| else 0
  }

  lemma CountedShown(model: Option<Model>)
    ensures CopyCount(Counted(model)) == CopiesShown(model) && CopiesIn(Counted(model), LoadingFailed) == FailedShown(model)
  {
    if model.Some? {
      CountsPositions(model.value.copies);
      CountsPositionsIn(model.value.copies, LoadingFailed);
    }
  }

  /** The copies shown are those of the active model and, when it is another one, of the target. */
  lemma CopiesShownExactly(s: Fields, v: VModel, now: int, e: Endpoints, validSpec: bool)
    ensures var t, other := Update(s, v, now, e, validSpec), if v.activeId == v.targetId then None else v.target;
            && t.totalCopies == CopiesShown(v.active) + CopiesShown(other)
            && t.failedCopies == FailedShown(v.active) + FailedShown(other)
  {
    CountedShown(v.active);
    CountedShown(v.target);
    CountsAdd(Counted(v.active), if v.activeId == v.targetId then [] else Counted(v.target));
  }

  /** The first position that holds a failed copy. */
  ghost predicate FirstFailedAt(copies: seq<Option<Copy>>, i: int) {
    && 0 <= i < |copies| && copies[i].Some? && copies[i].value.status == LoadingFailed
    && forall j :: 0 <= j < i && copies[j].Some? ==> copies[j].value.status != LoadingFailed
  }

  /** The location and time of a failure, from the first failed copy; a time of 0 milliseconds is unset. */
  ghost predicate PlacedByCopies(f: Failure, copies: seq<Option<Copy>>) {
    if i :| FirstFailedAt(copies, i) then
      f.location == copies[i].value.location &&
      f.time == if copies[i].value.time == 0 then None else Some(copies[i].value.time * 1_000_000)
    else
      f.location == "" && f.time == None
  }

  lemma FirstFailedIsAt(copies: seq<Option<Copy>>)
    ensures forall i :: FirstFailedAt(copies, i) ==> FirstFailed(copies) == copies[i]
    ensures FirstFailed(copies).Some? ==> exists i :: FirstFailedAt(copies, i)
  {
    forall i | FirstFailedAt(copies, i) ensures FirstFailed(copies) == copies[i] {
      assert copies[i] in copies && IsFailed(copies[i]);
    }
    if FirstFailed(copies).Some? {
      var i :| 0 <= i < |copies| && copies[i] == FirstFailed(copies) && IsFailed(copies[i]) &&
               forall j :: 0 <= j < i ==> !IsFailed(copies[j]);
      assert FirstFailedAt(copies, i);
    }
  }

  /** The failure a model that is heading for being loaded shows, by its own report. */
  ghost predicate FailureOf(f: Failure, model: Model, modelId: string, last: Option<Failure>, now: int) {
    && f.modelId == modelId
    && if !Homeless(model) then
         f.reason == ModelLoadFailed && f.message == FirstError(model) && PlacedByCopies(f, model.copies)
       else
         && f.location == ""
         && f.time == Some(if last.Some? && last.value.time.Some? && now - last.value.time.value <= 20 * SECOND
                           then last.value.time.value else now)
         && if !Unsupported(model) then
              f.reason == RuntimeUnhealthy && f.message == "Waiting for supporting runtime Pod to become available"
            else if "rt:" <= FirstError(model)[|NO_HOME|..] then
              f.reason == RuntimeNotRecognized && f.message == "Specified runtime name not recognized"
            else
              f.reason == NoSupportingRuntime &&
              f.message == "No ServingRuntime supports specified model type and/or protocol"
  }

  /** Without an error and without a failed load there is nothing to report. */
  predicate Quiet(model: Model) {
    model.status != LoadingFailed && model.errors == []
  }

  lemma DecodedReason(model: Model)
    requires !Quiet(model)
    ensures var d := Decode(Some(model));
            && (d.reason == ModelLoadFailed <==> !Homeless(model))
            && (d.reason == RuntimeUnhealthy <==> Homeless(model) && !Unsupported(model))
            && d.reason != NoReason
            && (!Homeless(model) ==> d.message == FirstError(model))
  {
  }

  /** With a valid spec: no failure is shown exactly when the model the predictor is heading for is missing, is loaded, or
      reports nothing wrong while no runtime was waited for; one that is waited for is kept while nothing is wrong; any other
      failure is the one the report tells of. */
  lemma FailureShownExactly(s: Fields, v: VModel, now: int, e: Endpoints)
    ensures var f, target := Update(s, v, now, e, true).failure, if v.activeId == v.targetId then v.active else v.target;
            if target.None? || target.value.status == IsLoaded then f == None
            else if Quiet(target.value) then
              f == if s.failure.Some? && s.failure.value.reason == RuntimeUnhealthy then s.failure else None
            else f.Some? && FailureOf(f.value, target.value, v.targetId, s.failure, now)
  {
    var target := if v.activeId == v.targetId then v.active else v.target;
    if target.Some? && target.value.status != IsLoaded && !Quiet(target.value) {
      DecodedReason(target.value);
      if Homeless(target.value) {
        HomelessFailure(s.failure, target.value, v, now);
      } else {
        CopyFailure(s.failure, target.value, v, now);
      }
    }
  }

  lemma CopyFailure(last: Option<Failure>, model: Model, v: VModel, now: int)
    requires Target(v) == Some(model) && model.status != IsLoaded && !Quiet(model) && !Homeless(model)
    ensures NextFailure(last, v, now).Some? && FailureOf(NextFailure(last, v, now).value, model, v.targetId, last, now)
  {
    DecodedReason(model);
    FirstFailedIsAt(model.copies);
  }

  lemma HomelessFailure(last: Option<Failure>, model: Model, v: VModel, now: int)
    requires Target(v) == Some(model) && Homeless(model)
    ensures NextFailure(last, v, now).Some? && FailureOf(NextFailure(last, v, now).value, model, v.targetId, last, now)
  {
    DecodedHomeless(model);
    HomelessIs(last, model, v, now);
  }

  lemma HomelessIs(last: Option<Failure>, model: Model, v: VModel, now: int)
    requires Target(v) == Some(model) && Homeless(model)
    ensures var d := Decode(Some(model));
            var time := if last.Some? && last.value.time.Some? && now - last.value.time.value <= 20 * SECOND
                        then last.value.time.value else now;
            NextFailure(last, v, now) == Some(Failure("", d.reason, d.message, v.targetId, Some(time)))
  {
  }

  lemma DecodedHomeless(model: Model)
    requires Homeless(model)
    ensures var d := Decode(Some(model));
            if !Unsupported(model) then
              d.reason == RuntimeUnhealthy && d.message == "Waiting for supporting runtime Pod to become available"
            else if "rt:" <= FirstError(model)[|NO_HOME|..] then
              d.reason == RuntimeNotRecognized && d.message == "Specified runtime name not recognized"
            else
              d.reason == NoSupportingRuntime && d.message == "No ServingRuntime supports specified model type and/or protocol"
  {
    if Unsupported(model) {
      ThreeMoreCharacters(FirstError(model));
      StartsExactly(FirstError(model)[|NO_HOME|..]);
    }
  }

  lemma StartsExactly(s: string)
    requires 3 <= |s|
    ensures s[..3] == "rt:" <==> "rt:" <= s
  {
  }

  /** The rest: a predictor is available exactly when its active state is neither empty nor failed and no runtime is waited
      for, and the endpoints are those given. */
  lemma RestShownExactly(s: Fields, v: VModel, now: int, e: Endpoints, validSpec: bool)
    ensures var t := Update(s, v, now, e, validSpec);
            && (t.available <==> t.active !in {NoState, FailedToLoad} &&
                                 !(t.failure.Some? && t.failure.value.reason == RuntimeUnhealthy))
            && t.http == e.http && t.grpc == e.grpc
  {
  }

  // ---------------------------------------------------------------------------
  // What `changed` misses
  // ---------------------------------------------------------------------------

  /** When nothing else changed, `available` changes exactly when it broke its own formula on entry. */
  lemma QuietUpdateExactly(s: Fields, v: VModel, now: int, e: Endpoints, validSpec: bool)
    requires SameButAvailable(s, Update(s, v, now, e, validSpec))
    ensures Update(s, v, now, e, validSpec) == s <==> s.available == Serves(s.active, s.failure)
  {
  }

  /** With no transition under way, a predictor is shown available exactly when its model is not registered yet; or is
      loaded; or has not failed and either reports an error or was not waiting for a runtime, where a status that is not
      recognised leaves the decision to the state shown before. */
  lemma SettledAvailableExactly(s: Fields, v: VModel, now: int, e: Endpoints)
    requires v.activeId == v.targetId
    ensures Update(s, v, now, e, true).available <==>
            v.active.None? || v.active.value.status == IsLoaded ||
            (&& v.active.value.status != LoadingFailed && (v.active.value.errors != [] || !Waiting(s))
             && (v.active.value.status == Other ==> s.active !in {NoState, FailedToLoad}))
  {
  }

  // ---------------------------------------------------------------------------
  // Repeated reports
  // ---------------------------------------------------------------------------

  /** A failure stamped with the current time rather than a copy's. */
  predicate StampsNow(v: VModel) {
    && Target(v).Some? && Target(v).value.status != IsLoaded
    && Decode(Target(v)).reason !in {NoReason, ModelLoadFailed}
  }

  /** The same report again changes the status exactly when it restamps a recorded time over 20 seconds old. */
  lemma RepeatExactly(s: Fields, v: VModel, now1: int, now2: int, e: Endpoints, validSpec: bool)
    ensures var once := Update(s, v, now1, e, validSpec);
            Update(once, v, now2, e, validSpec) != once <==> validSpec && StampsNow(v) && !Recent(once.failure, now2)
  {
  }

  function Repeated(s: Fields, v: VModel, e: Endpoints, nows: seq<int>): Fields {
    if nows == [] then s else Update(Repeated(s, v, e, nows[..|nows| - 1]), v, nows[|nows| - 1], e, true)
  }

  predicate ChangesAt(s: Fields, v: VModel, e: Endpoints, nows: seq<int>, k: nat)
    requires k < |nows|
  {
    Repeated(s, v, e, nows[..k]) != Repeated(s, v, e, nows[..k + 1])
  }

  lemma RepeatedStep(s: Fields, v: VModel, e: Endpoints, nows: seq<int>, k: nat)
    requires k < |nows|
    ensures Repeated(s, v, e, nows[..k + 1]) == Update(Repeated(s, v, e, nows[..k]), v, nows[k], e, true)
  {
    assert nows[..k + 1][..k] == nows[..k];
  }

  /** A recorded time. */
  function Stamp(s: Fields): Option<int> {
    if s.failure.Some? then s.failure.value.time else None
  }

  predicate StampedSince(s: Fields, t: int) {
    Stamp(s).Some? && t <= Stamp(s).value
  }

  lemma StampGrows(s: Fields, v: VModel, now: int, e: Endpoints, t: int)
    requires StampsNow(v) && StampedSince(s, t)
    ensures StampedSince(Update(s, v, now, e, true), t)
  {
  }

  lemma ChangeStamps(s: Fields, v: VModel, now1: int, now2: int, e: Endpoints)
    ensures var once := Update(s, v, now1, e, true);
            var twice := Update(once, v, now2, e, true);
            twice != once ==>
              StampsNow(v) && Stamp(twice) == Some(now2) && Stamp(once).Some? && now2 - Stamp(once).value > 20 * SECOND
  {
    RepeatExactly(s, v, now1, now2, e, true);
  }

  lemma StampedByChange(s: Fields, v: VModel, e: Endpoints, nows: seq<int>, j: nat)
    requires 0 < j < |nows|
    ensures ChangesAt(s, v, e, nows, j) ==> StampsNow(v) && StampedSince(Repeated(s, v, e, nows[..j + 1]), nows[j])
  {
    RepeatedStep(s, v, e, nows, j - 1);
    RepeatedStep(s, v, e, nows, j);
    ChangeStamps(Repeated(s, v, e, nows[..j - 1]), v, nows[j - 1], nows[j], e);
  }

  lemma StampedStep(s: Fields, v: VModel, e: Endpoints, nows: seq<int>, k: nat, t: int)
    requires k < |nows| && StampsNow(v) && StampedSince(Repeated(s, v, e, nows[..k]), t)
    ensures StampedSince(Repeated(s, v, e, nows[..k + 1]), t)
  {
    RepeatedStep(s, v, e, nows, k);
    StampGrows(Repeated(s, v, e, nows[..k]), v, nows[k], e, t);
  }

  /** Once stamped, the recorded time never moves back. */
  lemma {:induction false} StaysStamped(s: Fields, v: VModel, e: Endpoints, nows: seq<int>, m: nat, k: nat, t: int)
    requires m <= k <= |nows| && StampsNow(v) && StampedSince(Repeated(s, v, e, nows[..m]), t)
    ensures StampedSince(Repeated(s, v, e, nows[..k]), t)
    decreases k - m
  {
    if m < k {
      StampedStep(s, v, e, nows, m, t);
      StaysStamped(s, v, e, nows, m + 1, k, t);
    }
  }

  /** However often one report is processed, changes after the first are over 20 seconds apart: a status update cannot
      feed a tight loop of further updates. */
  lemma ChangesAreSpaced(s: Fields, v: VModel, e: Endpoints, nows: seq<int>, j: nat, k: nat)
    requires 0 < j < k < |nows|
    ensures ChangesAt(s, v, e, nows, j) && ChangesAt(s, v, e, nows, k) ==> nows[k] - nows[j] > 20 * SECOND
  {
    if ChangesAt(s, v, e, nows, j) && ChangesAt(s, v, e, nows, k) {
      StampedByChange(s, v, e, nows, j);
      StaysStamped(s, v, e, nows, j + 1, k, nows[j]);
      RepeatedStep(s, v, e, nows, k - 1);
      RepeatedStep(s, v, e, nows, k);
      ChangeStamps(Repeated(s, v, e, nows[..k - 1]), v, nows[k - 1], nows[k], e);
    }
  }

  // ---------------------------------------------------------------------------
  // Runs of reconciliations
  // ---------------------------------------------------------------------------

  /** What one reconciliation does to the status: a report merged in, with a valid spec; no addresses to call; a name
      taken by another source; or an invalid spec, after merging a report if there was one. */
  datatype Event =
    | Reported(v: VModel, now: int, e: Endpoints)
    | NoAddresses(modelId: string)
    | AlreadyExists
    | Invalid(report: Option<VModel>, at: int, endpoints: Endpoints, message: string, modelId: string)

  function Reconcile(s: Fields, event: Event): Fields {
    match event
    case Reported(v, now, e) => Update(s, v, now, e, true)
    case NoAddresses(modelId) =>
      s.(failure := Some(Failure("", RuntimeUnhealthy, "Waiting for runtime Pod to become available", modelId, None)))
    case AlreadyExists =>
      s.(failure := Some(Failure(
                           "", InvalidPredictorSpec,
                           "Predictor already exists with the same name from a different source", "", None)))
    case Invalid(report, at, e, message, modelId) =>
      var t := if report.Some? then Update(s, report.value, at, e, false) else s;
      t.(failure := Some(Failure("", InvalidPredictorSpec, message, modelId, None)), transition := InvalidSpec)
  }

  function Run(s: Fields, events: seq<Event>): Fields {
    if events == [] then s else Reconcile(Run(s, events[..|events| - 1]), events[|events| - 1])
  }

  /** No addresses, or a target that cannot be placed while some runtime could take it. */
  predicate Unhealthy(event: Event) {
    match event
    case NoAddresses(_) => true
    case Reported(v, _, _) => Target(v).Some? && Decode(Target(v)).reason == RuntimeUnhealthy
    case _ => false
  }

  /** A target that is there, not loaded and reported without any error. */
  predicate Undecided(event: Event) {
    event.Reported? && Target(event.v).Some? && Target(event.v).value.status != IsLoaded &&
    Decode(Target(event.v)).reason == NoReason
  }

  lemma WaitingStep(s: Fields, event: Event)
    ensures Waiting(Reconcile(s, event)) <==> Unhealthy(event) || (Undecided(event) && Waiting(s))
  {
  }

  /** Waiting began with event i - 1, or before the run when i is 0, and no event since ended it. */
  predicate WaitingSince(s: Fields, events: seq<Event>, i: nat)
    requires i <= |events|
  {
    && (if i == 0 then Waiting(s) else Unhealthy(events[i - 1]))
    && forall j :: i <= j < |events| ==> Undecided(events[j])
  }

  /** Over every run: the status waits for a runtime exactly when some event made it wait (or it waited at the start)
      and every event since reported a target neither loaded, missing nor failed for another reason. */
  lemma {:induction false} WaitingExactly(s: Fields, events: seq<Event>)
    ensures Waiting(Run(s, events)) <==> exists i :: 0 <= i <= |events| && WaitingSince(s, events, i)
    decreases |events|
  {
    if events == [] {
      assert WaitingSince(s, events, 0) <==> Waiting(s);
    } else {
      var n := |events| - 1;
      var before := events[..n];
      WaitingExactly(s, before);
      WaitingStep(Run(s, before), events[n]);
      assert WaitingSince(s, events, n + 1) <==> Unhealthy(events[n]);
      forall i | 0 <= i <= n ensures WaitingSince(s, events, i) <==> WaitingSince(s, before, i) && Undecided(events[n]) {
        SinceExtends(s, events, i);
      }
    }
  }

  lemma SinceExtends(s: Fields, events: seq<Event>, i: nat)
    requires i < |events|
    ensures WaitingSince(s, events, i) <==> WaitingSince(s, events[..|events| - 1], i) && Undecided(events[|events| - 1])
  {
    var before := events[..|events| - 1];
    assert i > 0 ==> before[i - 1] == events[i - 1];
    if WaitingSince(s, events, i) {
      forall j | i <= j < |before| ensures Undecided(before[j]) {
        assert before[j] == events[j];
      }
    } else if WaitingSince(s, before, i) && Undecided(events[|events| - 1]) {
      forall j | i <= j < |events| ensures Undecided(events[j]) {
        if j < |before| {
          assert events[j] == before[j];
        }
      }
      assert WaitingSince(s, events, i);
    }
  }

  /** The report an event merges in, if any. */
  function ReportOf(event: Event): Option<VModel> {
    match event
    case Reported(v, _, _) => Some(v)
    case Invalid(report, _, _, _, _) => report
    case _ => None
  }

  /** What an event other than a valid report shows: no addresses and a taken name set the failure and nothing else; an
      invalid spec sets the failure and the transition, and takes the rest from the report if there is one. */
  lemma OtherEventsShow(s: Fields, event: Event)
    ensures var t := Reconcile(s, event);
            match event
            case Reported(_, _, _) => true
            case NoAddresses(modelId) =>
              t == s.(failure := t.failure) && t.failure.Some? && t.failure.value.reason == RuntimeUnhealthy &&
              t.failure.value.modelId == modelId
            case AlreadyExists =>
              t == s.(failure := t.failure) && t.failure.Some? && t.failure.value.reason == InvalidPredictorSpec &&
              t.failure.value.modelId == ""
            case Invalid(report, at, e, message, modelId) =>
              && t.failure == Some(Failure("", InvalidPredictorSpec, message, modelId, None)) && t.transition == InvalidSpec
              && (report.None? ==> t == s.(failure := t.failure, transition := InvalidSpec))
              && (report.Some? ==>
                    t == Update(s, report.value, at, e, false).(failure := t.failure, transition := InvalidSpec))
  {
  }

  /** The event reports an active model that is missing or has a recognised status. */
  predicate TellsActive(event: Event) {
    var r := ReportOf(event);
    r.Some? && (r.value.active.None? || r.value.active.value.status != Other)
  }

  ghost predicate LastTelling(events: seq<Event>, i: int) {
    0 <= i < |events| && TellsActive(events[i]) && forall j :: i < j < |events| ==> !TellsActive(events[j])
  }

  lemma ActiveStep(s: Fields, event: Event, state: ModelState)
    ensures Reconcile(s, event).active == state <==>
            if !TellsActive(event) then s.active == state
            else ActiveIn(ReportOf(event).value, state)
  {
    match event
    case Reported(v, now, e) => ActiveShownExactly(s, v, now, e, true, state);
    case Invalid(report, at, e, _, _) =>
      if report.Some? {
        ActiveShownExactly(s, report.value, at, e, false, state);
      }
    case _ =>
  }

  /** Over every run of reconciliations: the active state shown is what the last report with a recognised active model says,
      or what was shown at the start. */
  lemma {:induction false} ActiveExactly(s: Fields, events: seq<Event>, state: ModelState)
    ensures Run(s, events).active == state <==>
            || (s.active == state && forall j :: 0 <= j < |events| ==> !TellsActive(events[j]))
            || exists i :: LastTelling(events, i) && ActiveIn(ReportOf(events[i]).value, state)
    decreases |events|
  {
    if events != [] {
      var n := |events| - 1;
      var before := events[..n];
      ActiveExactly(s, before, state);
      ActiveStep(Run(s, before), events[n], state);
      if TellsActive(events[n]) {
        assert LastTelling(events, n);
        assert forall i :: LastTelling(events, i) ==> i == n;
      } else {
        forall i ensures LastTelling(events, i) <==> LastTelling(before, i) {
          TellingExtends(events, i);
        }
      }
    }
  }

  lemma TellingExtends(events: seq<Event>, i: int)
    requires events != [] && !TellsActive(events[|events| - 1])
    ensures LastTelling(events, i) <==> LastTelling(events[..|events| - 1], i)
  {
    var before := events[..|events| - 1];
    if LastTelling(before, i) {
      forall j | i < j < |events| ensures !TellsActive(events[j]) {
        assert j < |before| ==> before[j] == events[j];
      }
    }
  }

  ghost predicate ActiveIn(v: VModel, state: ModelState) {
    if v.active.None? then state == Pending else Shows(v.active.value, state)
  }

  // ---------------------------------------------------------------------------
  // Where the code departs from its comments
  // ---------------------------------------------------------------------------

  /** A failed transition shows as in progress exactly when the target's raw status is loading; so the case the comment
      describes, a target turned from failed back to loading because no pod can take it yet, is always left blocked. */
  lemma NowhereToLoadStaysBlocked(s: Fields, v: VModel, now: int, e: Endpoints)
    requires v.status == TransitionFailed
    ensures var t := Update(s, v, now, e, true);
            && (t.transition == InProgress <==> Target(v).Some? && Target(v).value.status == BeingLoaded)
            && (Target(v).Some? && Decode(Target(v)).reason == RuntimeUnhealthy ==>
                  Decode(Target(v)).state == LoadingState && t.transition == BlockedByFailedLoad && Waiting(t) && !t.available)
  {
  }

  /** A run where `available` turns false with nothing else changed, so the change is not written back. */
  lemma AvailableChangesSilently(e: Endpoints, s: Fields)
    requires s == Fields(true, UpToDate, LoadingState, NoState, None, e.http, e.grpc, 0, 0)
    ensures var loading := VModel(Defined, "m", "m", Some(Model(BeingLoaded, [], [])), None);
            var waiting := Reconcile(s, NoAddresses("m"));
            var after := Reconcile(waiting, Reported(loading, 0, e));
            waiting.available && !after.available && SameButAvailable(waiting, after)
  {
  }
}
