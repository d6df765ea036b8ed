/** Which runtimes can hold a predictor's model: the controller's own test, and the type constraints handed to model-mesh. */
module Placement {
  import opened Basics
  import opened Text

  /** SupportedModelFormat; an unset AutoSelect is false. */
  datatype Format = Format(name: string, version: Option<string>, autoSelect: bool)

  /** The parts of a ServingRuntimeSpec that decide placement. */
  datatype Runtime = Runtime(formats: seq<Format>, protocols: seq<string>, disabled: bool, multiModel: bool)

  /** The parts of a predictor that decide placement; `runtime` is spec.runtime.name. */
  datatype Predictor = Predictor(runtime: Option<string>, modelType: string, version: Option<string>, protocol: Option<string>)

  const GRPC_V2 := "grpc-v2"
  const V2 := "v2"
  const DEFAULT := "_default"
  const NO_RUNTIME_LABEL := "_no_runtime"

  // ---------------------------------------------------------------------------
  // Labels
  // ---------------------------------------------------------------------------

  function TypeName(name: string): string {
    "mt:" + name
  }

  function VersionedName(name: string, version: string): string {
    TypeName(name) + ":" + version
  }

  function ProtocolLabel(protocol: string): string {
    "pv:" + protocol
  }

  function RuntimeLabel(name: string): string {
    "rt:" + name
  }

  function FormatLabels(f: Format): set<string> {
    if !f.autoSelect then {}
    else if f.version.None? then {TypeName(f.name)}
    else {TypeName(f.name), VersionedName(f.name, f.version.value)}
  }

  function LabelsOf(formats: seq<Format>): set<string> {
    set f, l | f in formats && l in FormatLabels(f) :: l
  }

  function ModelTypeLabels(rt: Runtime): set<string> {
    LabelsOf(rt.formats)
  }

  function ProtocolsOf(protocol: string, restProxy: bool): set<string> {
    if restProxy && protocol == GRPC_V2 then {ProtocolLabel(protocol), ProtocolLabel(V2)} else {ProtocolLabel(protocol)}
  }

  function AllProtocols(protocols: seq<string>, restProxy: bool): set<string> {
    set p, l | p in protocols && l in ProtocolsOf(p, restProxy) :: l
  }

  function ProtocolLabels(rt: Runtime, restProxy: bool): set<string> {
    AllProtocols(rt.protocols, restProxy)
  }

  lemma OneMoreFormat(formats: seq<Format>, f: Format)
    ensures LabelsOf(formats + [f]) == LabelsOf(formats) + FormatLabels(f)
  {
    forall l | l in LabelsOf(formats) + FormatLabels(f) ensures l in LabelsOf(formats + [f]) {
      if l in FormatLabels(f) {
        assert f in formats + [f];
      } else {
        var g :| g in formats && l in FormatLabels(g);
        assert g in formats + [f];
      }
    }
  }

  lemma OneMoreProtocol(protocols: seq<string>, p: string, restProxy: bool)
    ensures AllProtocols(protocols + [p], restProxy) == AllProtocols(protocols, restProxy) + ProtocolsOf(p, restProxy)
  {
    forall l | l in AllProtocols(protocols, restProxy) + ProtocolsOf(p, restProxy)
      ensures l in AllProtocols(protocols + [p], restProxy)
    {
      if l in ProtocolsOf(p, restProxy) {
        assert p in protocols + [p];
      } else {
        var q :| q in protocols && l in ProtocolsOf(q, restProxy);
        assert q in protocols + [p];
      }
    }
  }

  function LabelSet(rt: Runtime, restProxy: bool, name: string): set<string> {
    ModelTypeLabels(rt) + ProtocolLabels(rt, restProxy) + {RuntimeLabel(name)}
  }

  /** GetServingRuntimeLabelSets */
  method GetServingRuntimeLabelSets(rt: Runtime, restProxy: bool, name: string)
    returns (modelTypes: set<string>, protocols: set<string>, own: string)
    ensures modelTypes == ModelTypeLabels(rt) && protocols == ProtocolLabels(rt, restProxy) && own == RuntimeLabel(name)
  {
    modelTypes := {};
    for i := 0 to |rt.formats|
      invariant modelTypes == LabelsOf(rt.formats[..i])
    {
      assert rt.formats[..i + 1] == rt.formats[..i] + [rt.formats[i]];
      OneMoreFormat(rt.formats[..i], rt.formats[i]);
      var t := rt.formats[i];
      if t.autoSelect {
        modelTypes := modelTypes + {"mt:" + t.name};
        if t.version.Some? {
          modelTypes := modelTypes + {"mt:" + t.name + ":" + t.version.value};
        }
      }
    }
    assert rt.formats[..|rt.formats|] == rt.formats;
    protocols := {};
    for i := 0 to |rt.protocols|
      invariant protocols == AllProtocols(rt.protocols[..i], restProxy)
    {
      assert rt.protocols[..i + 1] == rt.protocols[..i] + [rt.protocols[i]];
      OneMoreProtocol(rt.protocols[..i], rt.protocols[i], restProxy);
      protocols := protocols + {"pv:" + rt.protocols[i]};
      if restProxy && rt.protocols[i] == GRPC_V2 {
        protocols := protocols + {"pv:" + V2};
      }
    }
    assert rt.protocols[..|rt.protocols|] == rt.protocols;
    own := "rt:" + name;
  }

  /** GetPredictorTypeLabel */
  function TypeLabel(p: Predictor): string {
    if NamesRuntime(p) then RuntimeLabel(p.runtime.value)
    else if p.protocol.None? then ModelLabel(p)
    else ModelLabel(p) + "|" + ProtocolLabel(p.protocol.value)
  }

  predicate NamesRuntime(p: Predictor) {
    p.runtime.Some? && p.runtime.value != ""
  }

  function ModelLabel(p: Predictor): string {
    if p.version.None? then TypeName(p.modelType) else VersionedName(p.modelType, p.version.value)
  }

  /** How the label reads: the runtime's if one is named, else the model type, its version and the protocol, as far as they
      are given. */
  lemma TypeLabelReads(p: Predictor)
    ensures TypeLabel(p) ==
            if p.runtime.Some? && p.runtime.value != "" then "rt:" + p.runtime.value
            else "mt:" + p.modelType + (if p.version.Some? then ":" + p.version.value else "")
                 + if p.protocol.Some? then "|pv:" + p.protocol.value else ""
  {
    if !NamesRuntime(p) {
      assert ModelLabel(p) == "mt:" + p.modelType + if p.version.Some? then ":" + p.version.value else "";
      if p.protocol.Some? {
        assert "|" + ProtocolLabel(p.protocol.value) == "|pv:" + p.protocol.value;
      }
    }
  }

  /** strings.Split on one character. */
  function Split(s: string, sep: char): seq<string> {
    SplitFrom(s, sep, "")
  }

  /** `part` is the part read so far. */
  function SplitFrom(s: string, sep: char, part: string): seq<string> {
    if s == "" then [part]
    else if s[0] == sep then [part] + SplitFrom(s[1..], sep, "")
    else SplitFrom(s[1..], sep, part + [s[0]])
  }

  lemma {:induction false} SplitPlain(s: string, sep: char, part: string)
    requires sep !in s
    ensures SplitFrom(s, sep, part) == [part + s]
    decreases |s|
  {
    if s == "" {
      assert part + s == part;
    } else {
      SplitPlain(s[1..], sep, part + [s[0]]);
      assert part + [s[0]] + s[1..] == part + s;
    }
  }

  lemma {:induction false} SplitOnce(a: string, sep: char, b: string, part: string)
    requires sep !in a && sep !in b
    ensures SplitFrom(a + [sep] + b, sep, part) == [part + a, b]
    decreases |a|
  {
    var s := a + [sep] + b;
    if a == "" {
      assert s[1..] == b && part + a == part;
      SplitPlain(b, sep, "");
      assert "" + b == b;
    } else {
      assert s[1..] == a[1..] + [sep] + b;
      SplitOnce(a[1..], sep, b, part + [s[0]]);
      assert part + [s[0]] + a[1..] == part + a;
    }
  }

  // ---------------------------------------------------------------------------
  // The controller's test
  // ---------------------------------------------------------------------------

  predicate Supports(rt: Runtime, p: Predictor, restProxy: bool, name: string) {
    forall l :: l in Split(TypeLabel(p), '|') ==> l in LabelSet(rt, restProxy, name)
  }

  /** runtimeSupportsPredictor */
  method RuntimeSupportsPredictor(rt: Runtime, p: Predictor, restProxy: bool, name: string) returns (r: bool)
    ensures r == Supports(rt, p, restProxy, name)
  {
    var modelTypes, protocols, own := GetServingRuntimeLabelSets(rt, restProxy, name);
    var labels := modelTypes + protocols + {own};
    var parts := Split(TypeLabel(p), '|');
    for i := 0 to |parts|
      invariant forall l :: l in parts[..i] ==> l in labels
    {
      if parts[i] !in labels {
        assert parts[i] in parts;
        return false;
      }
    }
    return true;
  }

  predicate Plain(s: string) {
    '|' !in s
  }

  predicate PlainOption(s: Option<string>) {
    s.Some? ==> Plain(s.value)
  }

  predicate PlainRuntime(rt: Runtime) {
    && (forall f :: f in rt.formats ==> Plain(f.name) && PlainOption(f.version))
    && forall p :: p in rt.protocols ==> Plain(p)
  }

  predicate PlainPredictor(p: Predictor) {
    PlainOption(p.runtime) && Plain(p.modelType) && PlainOption(p.version) && PlainOption(p.protocol)
  }

  lemma PartsOf(p: Predictor)
    requires PlainPredictor(p)
    ensures Split(TypeLabel(p), '|') ==
            if NamesRuntime(p) then [RuntimeLabel(p.runtime.value)]
            else if p.protocol.None? then [ModelLabel(p)]
            else [ModelLabel(p), ProtocolLabel(p.protocol.value)]
  {
    if NamesRuntime(p) {
      SplitPlain(RuntimeLabel(p.runtime.value), '|', "");
      assert "" + RuntimeLabel(p.runtime.value) == RuntimeLabel(p.runtime.value);
    } else {
      assert "" + ModelLabel(p) == ModelLabel(p);
      if p.protocol.None? {
        SplitPlain(ModelLabel(p), '|', "");
      } else {
        SplitOnce(ModelLabel(p), '|', ProtocolLabel(p.protocol.value), "");
      }
    }
  }

  /** The first letters tell the three kinds of labels apart. */
  lemma Kinds(rt: Runtime, restProxy: bool, name: string, l: string)
    requires l in LabelSet(rt, restProxy, name) && l != []
    ensures l[0] == 'r' ==> l == RuntimeLabel(name)
    ensures l[0] == 'm' ==> l in ModelTypeLabels(rt)
    ensures l[0] == 'p' ==> l in ProtocolLabels(rt, restProxy)
  {
  }

  /** What a runtime must have, part by part. */
  lemma SupportsExactly(rt: Runtime, p: Predictor, restProxy: bool, name: string)
    requires PlainPredictor(p)
    ensures Supports(rt, p, restProxy, name) <==>
            if NamesRuntime(p) then p.runtime.value == name
            else ModelLabel(p) in ModelTypeLabels(rt) &&
                 (p.protocol.Some? ==> ProtocolLabel(p.protocol.value) in ProtocolLabels(rt, restProxy))
  {
    PartsOf(p);
    var parts := Split(TypeLabel(p), '|');
    forall l | l in parts
      ensures l in LabelSet(rt, restProxy, name) <==>
              if l[0] == 'r' then l == RuntimeLabel(name)
              else if l[0] == 'm' then l in ModelTypeLabels(rt)
              else l in ProtocolLabels(rt, restProxy)
    {
      if l in LabelSet(rt, restProxy, name) {
        Kinds(rt, restProxy, name, l);
      }
    }
    if NamesRuntime(p) {
      var l := RuntimeLabel(p.runtime.value);
      assert l[3..] == p.runtime.value && RuntimeLabel(name)[3..] == name;
      assert parts[0] == l;
    } else {
      assert parts[0] == ModelLabel(p);
      if p.protocol.Some? {
        assert parts[1] == ProtocolLabel(p.protocol.value);
      }
    }
  }

  /** A format of the predictor's type, and of its version if it asks for one. */
  predicate OfType(f: Format, p: Predictor) {
    f.autoSelect && f.name == p.modelType && (p.version.Some? ==> f.version == p.version)
  }

  predicate Serves(rt: Runtime, p: Predictor, restProxy: bool) {
    p.protocol.Some? ==>
      p.protocol.value in rt.protocols || (restProxy && p.protocol.value == V2 && GRPC_V2 in rt.protocols)
  }

  /** The same without labels, in the runtime's and the predictor's own terms. */
  predicate Accepts(rt: Runtime, p: Predictor, restProxy: bool, name: string) {
    if p.runtime.Some? && p.runtime.value != "" then p.runtime.value == name
    else (exists f :: f in rt.formats && OfType(f, p)) && Serves(rt, p, restProxy)
  }

  /** A format of another type or version whose label reads the same, because a ":" in a name passes for the one before a
      version. */
  predicate Misread(f: Format, p: Predictor) {
    f.autoSelect &&
    if p.version.None? then
      f.version.Some? && p.modelType == f.name + ":" + f.version.value
    else
      || f.name == p.modelType + ":" + p.version.value
      || (f.version.Some? && f.name != p.modelType && f.name + ":" + f.version.value == p.modelType + ":" + p.version.value)
  }

  lemma SameProtocol(a: string, b: string)
    ensures ProtocolLabel(a) == ProtocolLabel(b) <==> a == b
  {
    assert ProtocolLabel(a)[3..] == a && ProtocolLabel(b)[3..] == b;
  }

  lemma SameType(a: string, b: string)
    ensures TypeName(a) == TypeName(b) <==> a == b
  {
    assert TypeName(a)[3..] == a && TypeName(b)[3..] == b;
  }

  lemma VersionedIsType(name: string, version: string)
    ensures VersionedName(name, version) == TypeName(name + ":" + version)
  {
  }

  lemma SameTail(s: string, sep: char, v: string, w: string)
    ensures s + [sep] + v == s + [sep] + w <==> v == w
  {
    assert (s + [sep] + v)[|s| + 1..] == v && (s + [sep] + w)[|s| + 1..] == w;
  }

  lemma NotVersioned(name: string, v: string)
    ensures name != name + ":" + v
  {
    assert |name| < |name + ":" + v|;
  }

  /** A label matches a format exactly when the format is of the predictor's type or is misread as such. */
  lemma FormatMatches(f: Format, p: Predictor)
    ensures ModelLabel(p) in FormatLabels(f) <==> OfType(f, p) || Misread(f, p)
  {
    var text := if p.version.None? then p.modelType else p.modelType + ":" + p.version.value;
    if p.version.Some? {
      VersionedIsType(p.modelType, p.version.value);
      NotVersioned(p.modelType, p.version.value);
    }
    assert ModelLabel(p) == TypeName(text);
    SameType(f.name, text);
    if f.version.Some? {
      VersionedIsType(f.name, f.version.value);
      SameType(f.name + ":" + f.version.value, text);
      if p.version.Some? {
        SameTail(f.name, ':', f.version.value, p.version.value);
      }
    }
  }

  /** Only a ":" in one of the two names can do that. */
  lemma MisreadNeedsColon(f: Format, p: Predictor)
    requires Misread(f, p)
    ensures ':' in f.name || ':' in p.modelType
  {
    if p.version.None? {
      assert p.modelType[|f.name|] == ':';
    } else if f.name == p.modelType + ":" + p.version.value {
      assert f.name[|p.modelType|] == ':';
    } else if ':' !in f.name && ':' !in p.modelType {
      SplitAtSeparator(':', f.name, f.version.value, p.modelType, p.version.value);
      assert false;
    }
  }

  lemma ProtocolMatches(rt: Runtime, protocol: string, restProxy: bool)
    ensures ProtocolLabel(protocol) in ProtocolLabels(rt, restProxy) <==>
            protocol in rt.protocols || (restProxy && protocol == V2 && GRPC_V2 in rt.protocols)
  {
    SameProtocol(protocol, V2);
    forall q ensures ProtocolLabel(q) == ProtocolLabel(protocol) <==> q == protocol {
      SameProtocol(q, protocol);
    }
    if protocol in rt.protocols {
      assert ProtocolLabel(protocol) in ProtocolsOf(protocol, restProxy);
    }
    if restProxy && protocol == V2 && GRPC_V2 in rt.protocols {
      assert ProtocolLabel(V2) in ProtocolsOf(GRPC_V2, restProxy);
    }
  }

  /** For names without "|": a runtime that accepts the predictor supports it, and the two are the same exactly when the
      predictor names its runtime, its protocol is not served, some format is of its type, or none is misread. */
  lemma SupportsMeans(rt: Runtime, p: Predictor, restProxy: bool, name: string)
    requires PlainPredictor(p)
    ensures Accepts(rt, p, restProxy, name) ==> Supports(rt, p, restProxy, name)
    ensures (Supports(rt, p, restProxy, name) <==> Accepts(rt, p, restProxy, name)) <==>
            || NamesRuntime(p) || !Serves(rt, p, restProxy)
            || (exists f :: f in rt.formats && OfType(f, p))
            || (forall f :: f in rt.formats ==> !Misread(f, p))
  {
    SupportsExactly(rt, p, restProxy, name);
    forall f | f in rt.formats ensures ModelLabel(p) in FormatLabels(f) <==> OfType(f, p) || Misread(f, p) {
      FormatMatches(f, p);
    }
    if p.protocol.Some? {
      ProtocolMatches(rt, p.protocol.value, restProxy);
    }
  }

  /** So without ":" in the names of model types either the label test means what a user would expect. */
  lemma SupportsMeansWithoutColon(rt: Runtime, p: Predictor, restProxy: bool, name: string)
    requires PlainPredictor(p) && ':' !in p.modelType && forall f :: f in rt.formats ==> ':' !in f.name
    ensures Supports(rt, p, restProxy, name) <==> Accepts(rt, p, restProxy, name)
  {
    SupportsMeans(rt, p, restProxy, name);
    forall f | f in rt.formats ensures !Misread(f, p) {
      if Misread(f, p) {
        MisreadNeedsColon(f, p);
        assert false;
      }
    }
  }

  /** With one it may not: a runtime for the type "a:b" supports a predictor of type "a" and version "b". */
  lemma ColonBreaksMeaning()
    ensures var rt := Runtime([Format("a:b", None, true)], [], false, true);
            var p := Predictor(None, "a", Some("b"), None);
            Supports(rt, p, false, "r") && !Accepts(rt, p, false, "r")
  {
    var rt := Runtime([Format("a:b", None, true)], [], false, true);
    var p := Predictor(None, "a", Some("b"), None);
    assert rt.formats[0] in rt.formats && "a:b" == "a" + ":" + "b" && |"a:b"| == 3;
    assert Misread(rt.formats[0], p);
    SupportsMeans(rt, p, false, "r");
  }

  // ---------------------------------------------------------------------------
  // The constraints given to model-mesh
  // ---------------------------------------------------------------------------

  type Constraints = map<string, seq<string>>

  predicate Placed(rt: Runtime) {
    !rt.disabled && rt.multiModel
  }

  function Pairs(l: string, protocols: set<string>): set<string> {
    set p | p in protocols :: l + "|" + p
  }

  function PairsOf(types: set<string>, protocols: set<string>): set<string> {
    set l, k | l in types && k in Pairs(l, protocols) :: k
  }

  /** The type labels a runtime brings in. */
  function Keys(rt: Runtime, restProxy: bool, name: string): set<string> {
    {RuntimeLabel(name)} + ModelTypeLabels(rt) +
    PairsOf(ModelTypeLabels(rt), ProtocolLabels(rt, restProxy))
  }

  predicate IsPair(l: string, protocols: set<string>, k: string, required: seq<string>) {
    exists p :: p in protocols && k == l + "|" + p && required == [l, p]
  }

  /** Whether a runtime asks for these labels under this key. */
  predicate Asks(rt: Runtime, restProxy: bool, name: string, k: string, required: seq<string>) {
    || (k == RuntimeLabel(name) && required == [k])
    || (k in ModelTypeLabels(rt) && required == [k])
    || exists l :: l in ModelTypeLabels(rt) && IsPair(l, ProtocolLabels(rt, restProxy), k, required)
  }

  function AllKeys(specs: map<string, Runtime>, restProxy: bool): set<string> {
    set n, k | n in specs && Placed(specs[n]) && k in Keys(specs[n], restProxy, n) :: k
  }

  predicate AskedFor(specs: map<string, Runtime>, restProxy: bool, k: string, required: seq<string>) {
    exists n :: n in specs && Placed(specs[n]) && Asks(specs[n], restProxy, n, k, required)
  }

  /** What the loops guarantee in whatever order they visit the runtimes and labels. */
  ghost predicate IsConstraints(m: Constraints, specs: map<string, Runtime>, restProxy: bool) {
    && m.Keys == AllKeys(specs, restProxy) + {DEFAULT}
    && m[DEFAULT] == [NO_RUNTIME_LABEL]
    && forall k :: k in m && k != DEFAULT ==> AskedFor(specs, restProxy, k, m[k])
  }

  // The order in which the loops visit runtimes, model type labels and protocol labels
  datatype TypeVisit = TypeVisit(tag: string, protocols: seq<string>)
  datatype Visit = Visit(name: string, types: seq<TypeVisit>)

  function PutPairs(m: Constraints, l: string, protocols: seq<string>): Constraints {
    if protocols == [] then
      m
    else
      var last := |protocols| - 1;
      PutPairs(m, l, protocols[..last])[l + "|" + protocols[last] := [l, protocols[last]]]
  }

  function PutType(m: Constraints, v: TypeVisit): Constraints {
    PutPairs(m[v.tag := [v.tag]], v.tag, v.protocols)
  }

  function PutTypes(m: Constraints, types: seq<TypeVisit>): Constraints {
    if types == [] then m else PutType(PutTypes(m, types[..|types| - 1]), types[|types| - 1])
  }

  function PutRuntime(m: Constraints, v: Visit): Constraints {
    PutTypes(m[RuntimeLabel(v.name) := [RuntimeLabel(v.name)]], v.types)
  }

  function PutRuntimes(order: seq<Visit>): Constraints {
    if order == [] then map[] else PutRuntime(PutRuntimes(order[..|order| - 1]), order[|order| - 1])
  }

  /** What the loops leave when they visit in this order. */
  function Built(order: seq<Visit>): Constraints {
    PutRuntimes(order)[DEFAULT := [NO_RUNTIME_LABEL]]
  }

  function LabelsIn(types: seq<TypeVisit>): (ls: seq<string>)
    ensures |ls| == |types| && forall i :: 0 <= i < |ls| ==> ls[i] == types[i].tag
  {
    seq(|types|, i requires 0 <= i < |types| => types[i].tag)
  }

  function NamesIn(order: seq<Visit>): (ns: seq<string>)
    ensures |ns| == |order| && forall i :: 0 <= i < |ns| ==> ns[i] == order[i].name
  {
    seq(|order|, i requires 0 <= i < |order| => order[i].name)
  }

  function PlacedNames(specs: map<string, Runtime>): set<string> {
    set n | n in specs && Placed(specs[n])
  }

  ghost predicate VisitsTypes(types: seq<TypeVisit>, labels: set<string>, protocols: set<string>) {
    Each(LabelsIn(types), labels) && forall v :: v in types ==> Each(v.protocols, protocols)
  }

  ghost predicate Visits(v: Visit, rt: Runtime, restProxy: bool) {
    VisitsTypes(v.types, ModelTypeLabels(rt), ProtocolLabels(rt, restProxy))
  }

  /** An order the loops may take: every runtime that is placed once, and within it every label once. */
  ghost predicate IsOrder(order: seq<Visit>, specs: map<string, Runtime>, restProxy: bool) {
    && Each(NamesIn(order), PlacedNames(specs))
    && forall v :: v in order && v.name in specs ==> Visits(v, specs[v.name], restProxy)
  }

  lemma OneMorePair(m: Constraints, l: string, s: seq<string>, p: string, all: set<string>)
    requires Each(s, all) && p !in all
    ensures Each(s + [p], all + {p}) && PutPairs(m, l, s + [p]) == PutPairs(m, l, s)[l + "|" + p := [l, p]]
  {
    assert (s + [p])[..|s|] == s;
  }

  method AddModelType(m: Constraints, l: string, protocols: set<string>) returns (r: Constraints, ghost v: TypeVisit)
    ensures v.tag == l && Each(v.protocols, protocols) && r == PutType(m, v)
  {
    var first := m[l := [l]];
    r, v := first, TypeVisit(l, []);
    var todo := protocols;
    ghost var done: set<string> := {};
    while todo != {}
      invariant done + todo == protocols && done !! todo
      invariant v.tag == l && Each(v.protocols, done) && r == PutPairs(first, l, v.protocols)
      decreases todo
    {
      var p :| p in todo;
      OneMorePair(first, l, v.protocols, p, done);
      r, v := r[l + "|" + p := [l, p]], TypeVisit(l, v.protocols + [p]);
      todo := todo - {p};
      done := done + {p};
    }
  }

  method AddRuntime(m: Constraints, rt: Runtime, restProxy: bool, name: string) returns (r: Constraints, ghost v: Visit)
    ensures v.name == name && Visits(v, rt, restProxy) && r == PutRuntime(m, v)
  {
    var modelTypes, protocols, own := GetServingRuntimeLabelSets(rt, restProxy, name);
    r, v := m[own := [own]], Visit(name, []);
    var todo := modelTypes;
    while todo != {}
      invariant todo <= modelTypes && v.name == name
      invariant VisitsTypes(v.types, modelTypes - todo, protocols) && r == PutRuntime(m, v)
      decreases todo
    {
      var l :| l in todo;
      ghost var t;
      r, t := AddModelType(r, l, protocols);
      OneMoreVisited(v.types, t, modelTypes - todo, protocols);
      v := v.(types := v.types + [t]);
      assert modelTypes - (todo - {l}) == modelTypes - todo + {l};
      todo := todo - {l};
    }
    assert modelTypes - todo == modelTypes;
  }

  lemma OneMoreVisited(types: seq<TypeVisit>, t: TypeVisit, labels: set<string>, protocols: set<string>)
    requires VisitsTypes(types, labels, protocols) && t.tag !in labels && Each(t.protocols, protocols)
    ensures VisitsTypes(types + [t], labels + {t.tag}, protocols)
    ensures (types + [t])[..|types|] == types
  {
    assert LabelsIn(types + [t]) == LabelsIn(types) + [t.tag];
  }

  lemma OneMoreRuntime(order: seq<Visit>, v: Visit, names: set<string>)
    requires Each(NamesIn(order), names) && v.name !in names
    ensures Each(NamesIn(order + [v]), names + {v.name})
    ensures (order + [v])[..|order|] == order
  {
    assert NamesIn(order + [v]) == NamesIn(order) + [v.name];
  }

  /** calculateConstraintData, before it is marshalled: what some order of the loops leaves. */
  method CalculateConstraintData(specs: map<string, Runtime>, restProxy: bool) returns (m: Constraints, ghost order: seq<Visit>)
    ensures IsOrder(order, specs, restProxy) && m == Built(order)
    ensures IsConstraints(m, specs, restProxy)
  {
    m, order := map[], [];
    var todo := specs.Keys;
    while todo != {}
      invariant todo <= specs.Keys
      invariant Each(NamesIn(order), PlacedNames(specs) - todo) && m == PutRuntimes(order)
      invariant forall v :: v in order && v.name in specs ==> Visits(v, specs[v.name], restProxy)
      decreases todo
    {
      var n :| n in todo;
      if !specs[n].disabled && specs[n].multiModel {
        ghost var v;
        m, v := AddRuntime(m, specs[n], restProxy, n);
        OneMoreRuntime(order, v, PlacedNames(specs) - todo);
        order := order + [v];
        assert PlacedNames(specs) - (todo - {n}) == PlacedNames(specs) - todo + {n};
      } else {
        assert PlacedNames(specs) - (todo - {n}) == PlacedNames(specs) - todo;
      }
      todo := todo - {n};
    }
    assert PlacedNames(specs) - todo == PlacedNames(specs);
    m := m[DEFAULT := [NO_RUNTIME_LABEL]];
    BuiltIsConstraints(order, specs, restProxy);
  }

  // ---------------------------------------------------------------------------
  // What every order leaves
  // ---------------------------------------------------------------------------

  function ToSet(s: seq<string>): set<string> {
    set x | x in s
  }

  /** Every entry is an old one or the model type's own. */
  ghost predicate AddsType(m: Constraints, r: Constraints, l: string, protocols: set<string>) {
    && r.Keys == m.Keys + {l} + Pairs(l, protocols)
    && forall k :: k in r ==> (k == l && r[k] == [l]) || IsPair(l, protocols, k, r[k]) || (k in m && r[k] == m[k])
  }

  lemma {:induction false} PutTypeAdds(m: Constraints, v: TypeVisit)
    ensures AddsType(m, PutType(m, v), v.tag, ToSet(v.protocols))
    decreases |v.protocols|
  {
    if v.protocols == [] {
      assert Pairs(v.tag, {}) == {} && ToSet([]) == {};
    } else {
      var last := |v.protocols| - 1;
      var before, p := v.protocols[..last], v.protocols[last];
      PutTypeAdds(m, v.(protocols := before));
      assert v.protocols == before + [p];
      assert ToSet(v.protocols) == ToSet(before) + {p};
      assert Pairs(v.tag, ToSet(v.protocols)) == Pairs(v.tag, ToSet(before)) + {v.tag + "|" + p};
      assert IsPair(v.tag, ToSet(v.protocols), v.tag + "|" + p, [v.tag, p]);
    }
  }

  function TypeKeys(types: set<string>, protocols: set<string>): set<string> {
    types + PairsOf(types, protocols)
  }

  predicate AsksType(types: set<string>, protocols: set<string>, k: string, required: seq<string>) {
    (k in types && required == [k]) || exists l :: l in types && IsPair(l, protocols, k, required)
  }

  ghost predicate AddsTypes(m: Constraints, r: Constraints, types: set<string>, protocols: set<string>) {
    && r.Keys == m.Keys + TypeKeys(types, protocols)
    && forall k :: k in r ==> AsksType(types, protocols, k, r[k]) || (k in m && r[k] == m[k])
  }

  lemma OneMoreType(m: Constraints, r: Constraints, r': Constraints, types: set<string>, l: string, protocols: set<string>)
    requires AddsTypes(m, r, types, protocols) && AddsType(r, r', l, protocols)
    ensures AddsTypes(m, r', types + {l}, protocols)
  {
    assert TypeKeys(types + {l}, protocols) == TypeKeys(types, protocols) + {l} + Pairs(l, protocols);
    forall k | k in r' ensures AsksType(types + {l}, protocols, k, r'[k]) || (k in m && r'[k] == m[k]) {
      if k in r && r'[k] == r[k] && AsksType(types, protocols, k, r[k]) && !(k in types && r[k] == [k]) {
        var l' :| l' in types && IsPair(l', protocols, k, r[k]);
      }
    }
  }

  lemma OneMoreLabel(types: seq<TypeVisit>)
    requires types != []
    ensures ToSet(LabelsIn(types)) == ToSet(LabelsIn(types[..|types| - 1])) + {types[|types| - 1].tag}
  {
    assert LabelsIn(types) == LabelsIn(types[..|types| - 1]) + [types[|types| - 1].tag];
  }

  lemma {:induction false} PutTypesAdds(m: Constraints, types: seq<TypeVisit>, protocols: set<string>)
    requires forall v :: v in types ==> Each(v.protocols, protocols)
    ensures AddsTypes(m, PutTypes(m, types), ToSet(LabelsIn(types)), protocols)
    decreases |types|
  {
    if types == [] {
      assert ToSet(LabelsIn(types)) == {} && TypeKeys({}, protocols) == {};
    } else {
      var before, v := types[..|types| - 1], types[|types| - 1];
      PutTypesAdds(m, before, protocols);
      PutTypeAdds(PutTypes(m, before), v);
      assert v in types && ToSet(v.protocols) == protocols;
      OneMoreLabel(types);
      OneMoreType(m, PutTypes(m, before), PutTypes(m, types), ToSet(LabelsIn(before)), v.tag, protocols);
    }
  }

  ghost predicate AddsRuntime(m: Constraints, r: Constraints, rt: Runtime, restProxy: bool, name: string) {
    && r.Keys == m.Keys + Keys(rt, restProxy, name)
    && forall k :: k in r ==> Asks(rt, restProxy, name, k, r[k]) || (k in m && r[k] == m[k])
  }

  lemma PutRuntimeAdds(m: Constraints, v: Visit, rt: Runtime, restProxy: bool)
    requires Visits(v, rt, restProxy)
    ensures AddsRuntime(m, PutRuntime(m, v), rt, restProxy, v.name)
  {
    PutTypesAdds(m[RuntimeLabel(v.name) := [RuntimeLabel(v.name)]], v.types, ProtocolLabels(rt, restProxy));
    assert ToSet(LabelsIn(v.types)) == ModelTypeLabels(rt);
  }

  ghost predicate FromRuntimes(m: Constraints, names: set<string>, specs: map<string, Runtime>, restProxy: bool) {
    && (forall k :: k in m <==> exists n :: n in names && n in specs && k in Keys(specs[n], restProxy, n))
    && forall k :: k in m ==> AskedFor(specs, restProxy, k, m[k])
  }

  lemma {:induction false} PutRuntimesFrom(order: seq<Visit>, specs: map<string, Runtime>, restProxy: bool)
    requires forall v :: v in order ==> v.name in specs && Placed(specs[v.name]) && Visits(v, specs[v.name], restProxy)
    ensures FromRuntimes(PutRuntimes(order), ToSet(NamesIn(order)), specs, restProxy)
    decreases |order|
  {
    if order != [] {
      var before, v := order[..|order| - 1], order[|order| - 1];
      PutRuntimesFrom(before, specs, restProxy);
      assert v in order;
      var m, r := PutRuntimes(before), PutRuntimes(order);
      PutRuntimeAdds(m, v, specs[v.name], restProxy);
      assert NamesIn(order) == NamesIn(before) + [v.name];
      forall k | k in r ensures AskedFor(specs, restProxy, k, r[k]) {
        assert Asks(specs[v.name], restProxy, v.name, k, r[k]) || AskedFor(specs, restProxy, k, m[k]);
      }
    }
  }

  lemma BuiltIsConstraints(order: seq<Visit>, specs: map<string, Runtime>, restProxy: bool)
    requires IsOrder(order, specs, restProxy)
    ensures IsConstraints(Built(order), specs, restProxy)
  {
    forall v | v in order ensures v.name in specs && Placed(specs[v.name]) {
      var i :| 0 <= i < |order| && order[i] == v;
      assert NamesIn(order)[i] in NamesIn(order);
    }
    PutRuntimesFrom(order, specs, restProxy);
    assert ToSet(NamesIn(order)) == PlacedNames(specs);
  }

  ghost predicate AllPlain(specs: map<string, Runtime>) {
    forall n :: n in specs ==> Plain(n) && PlainRuntime(specs[n])
  }

  lemma PlainLabels(rt: Runtime, restProxy: bool, l: string)
    requires PlainRuntime(rt)
    ensures l in ModelTypeLabels(rt) ==> Plain(l)
    ensures l in ProtocolLabels(rt, restProxy) ==> Plain(l)
  {
    if l in ModelTypeLabels(rt) {
      var f :| f in rt.formats && l in FormatLabels(f);
    }
    if l in ProtocolLabels(rt, restProxy) {
      var p :| p in rt.protocols && l in ProtocolsOf(p, restProxy);
    }
  }

  /** Without "|" in names the labels asked for under a key are the parts of the key. */
  lemma AsksForParts(rt: Runtime, restProxy: bool, name: string, k: string, required: seq<string>)
    requires PlainRuntime(rt) && Plain(name) && Asks(rt, restProxy, name, k, required)
    ensures required == Split(k, '|')
  {
    if required == [k] {
      PlainLabels(rt, restProxy, k);
      SplitPlain(k, '|', "");
      assert "" + k == k;
    } else {
      var l :| l in ModelTypeLabels(rt) && IsPair(l, ProtocolLabels(rt, restProxy), k, required);
      PlainLabels(rt, restProxy, l);
      PlainLabels(rt, restProxy, required[1]);
      SplitOnce(l, '|', required[1], "");
      assert "" + l == l;
    }
  }

  /** So the constraints do not depend on the order the loops run in. */
  lemma ConstraintsDetermined(m: Constraints, m': Constraints, specs: map<string, Runtime>, restProxy: bool)
    requires AllPlain(specs) && IsConstraints(m, specs, restProxy) && IsConstraints(m', specs, restProxy)
    ensures m == m'
  {
    forall k | k in m && k != DEFAULT ensures m[k] == m'[k] {
      RequiredParts(m, specs, restProxy, k);
      RequiredParts(m', specs, restProxy, k);
    }
  }

  lemma RequiredParts(m: Constraints, specs: map<string, Runtime>, restProxy: bool, k: string)
    requires AllPlain(specs) && IsConstraints(m, specs, restProxy) && k in m && k != DEFAULT
    ensures m[k] == Split(k, '|')
  {
    assert AskedFor(specs, restProxy, k, m[k]);
    var n :| n in specs && Placed(specs[n]) && Asks(specs[n], restProxy, n, k, m[k]);
    AsksForParts(specs[n], restProxy, n, k, m[k]);
  }

  // ---------------------------------------------------------------------------
  // The two agree
  // ---------------------------------------------------------------------------

  lemma TypeLabelIsNotDefault(p: Predictor)
    ensures TypeLabel(p) != DEFAULT
  {
    assert TypeLabel(p)[0] in {'r', 'm'};
  }

  /** A runtime supports a predictor exactly when it brings in the predictor's type label. */
  lemma SupportsBringsKey(rt: Runtime, p: Predictor, restProxy: bool, name: string)
    requires PlainPredictor(p) && PlainRuntime(rt) && Plain(name)
    ensures Supports(rt, p, restProxy, name) <==> TypeLabel(p) in Keys(rt, restProxy, name)
  {
    SupportsExactly(rt, p, restProxy, name);
    var k := TypeLabel(p);
    if Supports(rt, p, restProxy, name) {
      if !NamesRuntime(p) && p.protocol.Some? {
        assert k in Pairs(ModelLabel(p), ProtocolLabels(rt, restProxy));
      }
    }
    if k in Keys(rt, restProxy, name) {
      KeyIsAsked(rt, restProxy, name, k);
      var required :| Asks(rt, restProxy, name, k, required);
      AsksForParts(rt, restProxy, name, k, required);
      AskedAreOwn(rt, restProxy, name, k, required);
    }
  }

  lemma KeyIsAsked(rt: Runtime, restProxy: bool, name: string, k: string)
    requires k in Keys(rt, restProxy, name)
    ensures exists required :: Asks(rt, restProxy, name, k, required)
  {
    if k == RuntimeLabel(name) || k in ModelTypeLabels(rt) {
      assert Asks(rt, restProxy, name, k, [k]);
    } else {
      var l :| l in ModelTypeLabels(rt) && k in Pairs(l, ProtocolLabels(rt, restProxy));
      var p :| p in ProtocolLabels(rt, restProxy) && k == l + "|" + p;
      assert IsPair(l, ProtocolLabels(rt, restProxy), k, [l, p]);
      assert Asks(rt, restProxy, name, k, [l, p]);
    }
  }

  lemma AskedAreOwn(rt: Runtime, restProxy: bool, name: string, k: string, required: seq<string>)
    requires Asks(rt, restProxy, name, k, required)
    ensures forall l :: l in required ==> l in LabelSet(rt, restProxy, name)
  {
  }

  /** Model-mesh knows a predictor's type exactly when some enabled multi-model runtime supports it. */
  lemma KnownExactly(m: Constraints, specs: map<string, Runtime>, restProxy: bool, p: Predictor)
    requires AllPlain(specs) && PlainPredictor(p) && IsConstraints(m, specs, restProxy)
    ensures TypeLabel(p) in m <==>
            exists n :: n in specs && !specs[n].disabled && specs[n].multiModel && Supports(specs[n], p, restProxy, n)
  {
    TypeLabelIsNotDefault(p);
    forall n | n in specs ensures Supports(specs[n], p, restProxy, n) <==> TypeLabel(p) in Keys(specs[n], restProxy, n) {
      SupportsBringsKey(specs[n], p, restProxy, n);
    }
  }

  /** The controller counts a predictor for an enabled multi-model runtime exactly when model-mesh may place it there:
      its type label is a key of the constraints and the labels required are among the runtime's. */
  lemma PlacementAgrees(m: Constraints, specs: map<string, Runtime>, restProxy: bool, p: Predictor, n: string)
    requires AllPlain(specs) && PlainPredictor(p) && IsConstraints(m, specs, restProxy)
    requires n in specs && !specs[n].disabled && specs[n].multiModel
    ensures Supports(specs[n], p, restProxy, n) <==>
            TypeLabel(p) in m && forall l :: l in m[TypeLabel(p)] ==> l in LabelSet(specs[n], restProxy, n)
  {
    KnownExactly(m, specs, restProxy, p);
    TypeLabelIsNotDefault(p);
    if TypeLabel(p) in m {
      RequiredParts(m, specs, restProxy, TypeLabel(p));
    }
  }

  /** For a runtime that is disabled or not multi-model the two agree exactly when the predictor is not supported, or
      another runtime makes its type known. */
  lemma UnplacedAgreesExactly(m: Constraints, specs: map<string, Runtime>, restProxy: bool, p: Predictor, n: string)
    requires AllPlain(specs) && PlainPredictor(p) && IsConstraints(m, specs, restProxy)
    requires n in specs && (specs[n].disabled || !specs[n].multiModel)
    ensures (Supports(specs[n], p, restProxy, n) <==>
             TypeLabel(p) in m && forall l :: l in m[TypeLabel(p)] ==> l in LabelSet(specs[n], restProxy, n))
            <==> !Supports(specs[n], p, restProxy, n) ||
                 exists o :: o in specs && !specs[o].disabled && specs[o].multiModel && Supports(specs[o], p, restProxy, o)
  {
    KnownExactly(m, specs, restProxy, p);
    TypeLabelIsNotDefault(p);
    if TypeLabel(p) in m {
      RequiredParts(m, specs, restProxy, TypeLabel(p));
    }
  }
}
