/** Names with "|": when the order of the loops shows in the constraints, and when the controller's test and the
    constraints disagree. */
module PlacementExact {
  import opened Basics
  import opened Text
  import opened Placement

  // ---------------------------------------------------------------------------
  // Orders
  // ---------------------------------------------------------------------------

  ghost function TypeVisits(labels: seq<string>, protocols: set<string>): (types: seq<TypeVisit>)
    ensures LabelsIn(types) == labels && forall v :: v in types ==> Each(v.protocols, protocols)
  {
    var listed := InSomeOrder(protocols);
    seq(|labels|, i requires 0 <= i < |labels| => TypeVisit(labels[i], listed))
  }

  /** A visit of a runtime with its labels in this order. */
  ghost function VisitOf(rt: Runtime, restProxy: bool, name: string, labels: seq<string>): (v: Visit)
    requires Each(labels, ModelTypeLabels(rt))
    ensures v.name == name && Visits(v, rt, restProxy)
  {
    Visit(name, TypeVisits(labels, ProtocolLabels(rt, restProxy)))
  }

  ghost function SomeVisit(specs: map<string, Runtime>, restProxy: bool, n: string): (v: Visit)
    requires n in specs
    ensures v.name == n && Visits(v, specs[n], restProxy)
  {
    VisitOf(specs[n], restProxy, n, InSomeOrder(ModelTypeLabels(specs[n])))
  }

  ghost function SomeVisits(specs: map<string, Runtime>, restProxy: bool, names: seq<string>): (order: seq<Visit>)
    requires forall n :: n in names ==> n in specs
    ensures NamesIn(order) == names && forall v :: v in order && v.name in specs ==> Visits(v, specs[v.name], restProxy)
  {
    seq(|names|, i requires 0 <= i < |names| => SomeVisit(specs, restProxy, names[i]))
  }

  lemma SomeOrder(specs: map<string, Runtime>, restProxy: bool) returns (order: seq<Visit>)
    ensures IsOrder(order, specs, restProxy)
  {
    order := SomeVisits(specs, restProxy, InSomeOrder(PlacedNames(specs)));
  }

  /** An order that ends with this visit. */
  lemma OrderEndingWith(specs: map<string, Runtime>, restProxy: bool, v: Visit) returns (order: seq<Visit>)
    requires v.name in PlacedNames(specs) && Visits(v, specs[v.name], restProxy)
    ensures IsOrder(order, specs, restProxy) && order != [] && order[|order| - 1] == v
  {
    var others := PlacedNames(specs) - {v.name};
    var before := SomeVisits(specs, restProxy, InSomeOrder(others));
    order := before + [v];
    OneMoreRuntime(before, v, others);
    assert others + {v.name} == PlacedNames(specs);
  }

  // ---------------------------------------------------------------------------
  // The last write wins
  // ---------------------------------------------------------------------------

  lemma {:induction false} PutPairsHas(m: Constraints, l: string, protocols: seq<string>, p: string)
    ensures var r := PutPairs(m, l, protocols);
            && (p in protocols ==> l + "|" + p in r && r[l + "|" + p] == [l, p])
            && (l in m ==> l in r && r[l] == m[l])
    decreases |protocols|
  {
    if protocols != [] {
      var last := |protocols| - 1;
      PutPairsHas(m, l, protocols[..last], p);
      SameTail(l, '|', p, protocols[last]);
      assert l != l + "|" + protocols[last] by {
        assert |l| < |l + "|" + protocols[last]|;
      }
      assert protocols == protocols[..last] + [protocols[last]];
    }
  }

  /** Whatever was there, the labels a model type asks for under a key are there once it has been visited. */
  lemma PutTypeHas(m: Constraints, v: TypeVisit, k: string, required: seq<string>)
    requires (k == v.tag && required == [k]) || IsPair(v.tag, ToSet(v.protocols), k, required)
    ensures k in PutType(m, v) && PutType(m, v)[k] == required
  {
    if k == v.tag && required == [k] {
      PutPairsHas(m[v.tag := [v.tag]], v.tag, v.protocols, "");
    } else {
      var p :| p in ToSet(v.protocols) && k == v.tag + "|" + p && required == [v.tag, p];
      PutPairsHas(m[v.tag := [v.tag]], v.tag, v.protocols, p);
    }
  }

  /** The model type label under which a runtime asks for these labels. */
  ghost predicate AsksUnder(rt: Runtime, restProxy: bool, l: string, k: string, required: seq<string>) {
    l in ModelTypeLabels(rt) && ((k == l && required == [k]) || IsPair(l, ProtocolLabels(rt, restProxy), k, required))
  }

  /** A visit of the runtime that leaves this requirement: the label in question comes last. */
  lemma VisitLeaving(rt: Runtime, restProxy: bool, name: string, l: string, k: string, required: seq<string>)
    returns (v: Visit)
    requires AsksUnder(rt, restProxy, l, k, required)
    ensures v.name == name && Visits(v, rt, restProxy)
    ensures forall m :: k in PutRuntime(m, v) && PutRuntime(m, v)[k] == required
  {
    var others, protocols := ModelTypeLabels(rt) - {l}, ProtocolLabels(rt, restProxy);
    var before, last := TypeVisits(InSomeOrder(others), protocols), TypeVisit(l, InSomeOrder(protocols));
    OneMoreVisited(before, last, others, protocols);
    assert others + {l} == ModelTypeLabels(rt);
    assert ToSet(last.protocols) == protocols;
    v := Visit(name, before + [last]);
    forall m ensures k in PutRuntime(m, v) && PutRuntime(m, v)[k] == required {
      PutTypeHas(PutTypes(m[RuntimeLabel(name) := [RuntimeLabel(name)]], before), last, k, required);
    }
  }

  lemma AsksKinds(rt: Runtime, restProxy: bool, name: string, k: string, required: seq<string>)
    requires Asks(rt, restProxy, name, k, required)
    ensures k != [] && (k[0] == 'r' || k[0] == 'm')
    ensures k[0] == 'r' ==> required == [k]
  {
    if !(k == RuntimeLabel(name) && required == [k]) && !(k in ModelTypeLabels(rt) && required == [k]) {
      var l :| l in ModelTypeLabels(rt) && IsPair(l, ProtocolLabels(rt, restProxy), k, required);
      PairStarts(l, ProtocolLabels(rt, restProxy), k, required);
    }
  }

  lemma PairStarts(l: string, protocols: set<string>, k: string, required: seq<string>)
    requires l != [] && IsPair(l, protocols, k, required)
    ensures k != [] && k[0] == l[0]
  {
  }

  /** What is asked for under a key that starts with "r" is the key itself. */
  lemma AskedKinds(specs: map<string, Runtime>, restProxy: bool, k: string, required: seq<string>)
    requires AskedFor(specs, restProxy, k, required)
    ensures k != [] && k != DEFAULT && (k[0] == 'r' || k[0] == 'm')
    ensures k[0] == 'r' ==> required == [k]
  {
    var n :| n in specs && Placed(specs[n]) && Asks(specs[n], restProxy, n, k, required);
    AsksKinds(specs[n], restProxy, n, k, required);
    assert DEFAULT[0] == '_';
  }

  lemma UnderSomeType(rt: Runtime, restProxy: bool, name: string, k: string, required: seq<string>) returns (l: string)
    requires Asks(rt, restProxy, name, k, required) && k != [] && k[0] != 'r'
    ensures AsksUnder(rt, restProxy, l, k, required)
  {
    if k in ModelTypeLabels(rt) && required == [k] {
      l := k;
    } else {
      l :| l in ModelTypeLabels(rt) && IsPair(l, ProtocolLabels(rt, restProxy), k, required);
    }
  }

  /** Whatever some placed runtime asks for under a key, some order of the loops leaves there. */
  lemma OrderLeaving(specs: map<string, Runtime>, restProxy: bool, k: string, required: seq<string>)
    returns (order: seq<Visit>)
    requires AskedFor(specs, restProxy, k, required)
    ensures IsOrder(order, specs, restProxy) && k in Built(order) && Built(order)[k] == required
  {
    AskedKinds(specs, restProxy, k, required);
    var n :| n in specs && Placed(specs[n]) && Asks(specs[n], restProxy, n, k, required);
    if k[0] == 'r' {
      order := SomeOrder(specs, restProxy);
      BuiltIsConstraints(order, specs, restProxy);
      assert k in Keys(specs[n], restProxy, n);
      assert AskedFor(specs, restProxy, k, Built(order)[k]);
      AskedKinds(specs, restProxy, k, Built(order)[k]);
    } else {
      var l := UnderSomeType(specs[n], restProxy, n, k, required);
      var v := VisitLeaving(specs[n], restProxy, n, l, k, required);
      order := OrderEndingWith(specs, restProxy, v);
    }
  }

  // ---------------------------------------------------------------------------
  // When the order shows
  // ---------------------------------------------------------------------------

  /** Some key is asked for with two different lists of labels. */
  ghost predicate Ambiguous(specs: map<string, Runtime>, restProxy: bool) {
    exists k, r, r' :: r != r' && AskedFor(specs, restProxy, k, r) && AskedFor(specs, restProxy, k, r')
  }

  ghost predicate OrderShows(specs: map<string, Runtime>, restProxy: bool) {
    exists o, o' :: IsOrder(o, specs, restProxy) && IsOrder(o', specs, restProxy) && Built(o) != Built(o')
  }

  /** Two orders of the loops leave different constraints if and only if some key is asked for with two different lists. */
  lemma OrderShowsExactly(specs: map<string, Runtime>, restProxy: bool)
    ensures OrderShows(specs, restProxy) <==> Ambiguous(specs, restProxy)
  {
    if OrderShows(specs, restProxy) {
      var o, o' :| IsOrder(o, specs, restProxy) && IsOrder(o', specs, restProxy) && Built(o) != Built(o');
      BuiltIsConstraints(o, specs, restProxy);
      BuiltIsConstraints(o', specs, restProxy);
      assert Built(o).Keys == Built(o').Keys;
      var k :| k in Built(o) && Built(o)[k] != Built(o')[k];
      assert AskedFor(specs, restProxy, k, Built(o)[k]) && AskedFor(specs, restProxy, k, Built(o')[k]);
    }
    if Ambiguous(specs, restProxy) {
      var k, r, r' :| r != r' && AskedFor(specs, restProxy, k, r) && AskedFor(specs, restProxy, k, r');
      var o := OrderLeaving(specs, restProxy, k, r);
      var o' := OrderLeaving(specs, restProxy, k, r');
    }
  }

  /** Which takes a "|" in a name. */
  lemma AmbiguousNeedsBar(specs: map<string, Runtime>, restProxy: bool)
    requires Ambiguous(specs, restProxy)
    ensures !AllPlain(specs)
  {
    var k, r, r' :| r != r' && AskedFor(specs, restProxy, k, r) && AskedFor(specs, restProxy, k, r');
    var n :| n in specs && Placed(specs[n]) && Asks(specs[n], restProxy, n, k, r);
    var n' :| n' in specs && Placed(specs[n']) && Asks(specs[n'], restProxy, n', k, r');
    if AllPlain(specs) {
      AsksForParts(specs[n], restProxy, n, k, r);
      AsksForParts(specs[n'], restProxy, n', k, r');
      assert false;
    }
  }

  // ---------------------------------------------------------------------------
  // When the two relations disagree
  // ---------------------------------------------------------------------------

  predicate AllOwn(required: seq<string>, rt: Runtime, restProxy: bool, name: string) {
    forall l :: l in required ==> l in LabelSet(rt, restProxy, name)
  }

  /** The controller's test and the constraints say the same of this predictor and this runtime. */
  predicate Agree(m: Constraints, rt: Runtime, restProxy: bool, name: string, p: Predictor) {
    Supports(rt, p, restProxy, name) <==> TypeLabel(p) in m && AllOwn(m[TypeLabel(p)], rt, restProxy, name)
  }

  /** For any runtimes and any predictor, whatever their names: the two agree in every order of the loops if and only if a
      runtime that supports the predictor has all labels any placed runtime asks for under its type, and there is one, and
      a runtime that does not support it has all labels of none of them. */
  lemma AgreeInEveryOrderExactly(specs: map<string, Runtime>, restProxy: bool, p: Predictor, n: string)
    requires n in specs
    ensures (forall order :: IsOrder(order, specs, restProxy) ==> Agree(Built(order), specs[n], restProxy, n, p))
            <==>
            if Supports(specs[n], p, restProxy, n) then
              && (exists required :: AskedFor(specs, restProxy, TypeLabel(p), required))
              && (forall required :: AskedFor(specs, restProxy, TypeLabel(p), required) ==> AllOwn(required, specs[n], restProxy, n))
            else
              forall required :: AskedFor(specs, restProxy, TypeLabel(p), required) ==> !AllOwn(required, specs[n], restProxy, n)
  {
    var k := TypeLabel(p);
    TypeLabelIsNotDefault(p);
    forall order | IsOrder(order, specs, restProxy)
      ensures k in Built(order) <==> exists required :: AskedFor(specs, restProxy, k, required)
      ensures k in Built(order) ==> AskedFor(specs, restProxy, k, Built(order)[k])
    {
      BuiltIsConstraints(order, specs, restProxy);
      if required :| AskedFor(specs, restProxy, k, required) {
        AskedIsKey(specs, restProxy, k, required);
      }
    }
    var some := SomeOrder(specs, restProxy);
    forall required | AskedFor(specs, restProxy, k, required)
      ensures exists order :: IsOrder(order, specs, restProxy) && k in Built(order) && Built(order)[k] == required
    {
      var order := OrderLeaving(specs, restProxy, k, required);
    }
  }

  lemma AskedIsKey(specs: map<string, Runtime>, restProxy: bool, k: string, required: seq<string>)
    requires AskedFor(specs, restProxy, k, required)
    ensures k in AllKeys(specs, restProxy)
  {
    var n :| n in specs && Placed(specs[n]) && Asks(specs[n], restProxy, n, k, required);
    AskedIsOwnKey(specs[n], restProxy, n, k, required);
  }

  lemma AskedIsOwnKey(rt: Runtime, restProxy: bool, name: string, k: string, required: seq<string>)
    requires Asks(rt, restProxy, name, k, required)
    ensures k in Keys(rt, restProxy, name)
  {
    if k != RuntimeLabel(name) && k !in ModelTypeLabels(rt) {
      var l :| l in ModelTypeLabels(rt) && IsPair(l, ProtocolLabels(rt, restProxy), k, required);
      assert k in Pairs(l, ProtocolLabels(rt, restProxy));
    }
  }

  // ---------------------------------------------------------------------------
  // A predictor with "|" in a name
  // ---------------------------------------------------------------------------

  function Joined(parts: seq<string>, sep: char): string
    requires parts != []
  {
    if |parts| == 1 then parts[0] else parts[0] + [sep] + Joined(parts[1..], sep)
  }

  lemma {:induction false} SplitJoins(s: string, sep: char, part: string)
    ensures SplitFrom(s, sep, part) != [] && Joined(SplitFrom(s, sep, part), sep) == part + s
    decreases |s|
  {
    if s == "" {
      assert part + s == part;
    } else if s[0] == sep {
      SplitJoins(s[1..], sep, "");
      assert SplitFrom(s, sep, part)[1..] == SplitFrom(s[1..], sep, "");
      assert part + [sep] + ("" + s[1..]) == part + s;
    } else {
      SplitJoins(s[1..], sep, part + [s[0]]);
      assert part + [s[0]] + s[1..] == part + s;
    }
  }

  /** The predictor's type label reads as one label, or as a model type and a protocol. */
  predicate WellSplit(p: Predictor) {
    var parts := Split(TypeLabel(p), '|');
    || |parts| == 1
    || (|parts| == 2 && parts[0] != "" && parts[0][0] == 'm' && parts[1] != "" && parts[1][0] == 'p')
  }

  /** A runtime that has the parts of a label that reads so brings in the label. */
  lemma WellSplitBringsKey(rt: Runtime, restProxy: bool, name: string, p: Predictor)
    requires WellSplit(p) && Supports(rt, p, restProxy, name)
    ensures TypeLabel(p) in Keys(rt, restProxy, name)
  {
    var k := TypeLabel(p);
    var parts := Split(k, '|');
    SplitJoins(k, '|', "");
    assert "" + k == k;
    assert parts[0] in parts;
    if |parts| == 1 {
      assert parts[0] == k && k[0] in {'r', 'm'};
      Kinds(rt, restProxy, name, k);
    } else {
      assert parts[1] in parts && parts[1..] == [parts[1]];
      assert k == parts[0] + "|" + parts[1];
      Kinds(rt, restProxy, name, parts[0]);
      Kinds(rt, restProxy, name, parts[1]);
      assert k in Pairs(parts[0], ProtocolLabels(rt, restProxy));
    }
  }

  lemma AskedIsWellSplit(rt: Runtime, restProxy: bool, name: string, p: Predictor, required: seq<string>)
    requires Asks(rt, restProxy, name, TypeLabel(p), required) && required == Split(TypeLabel(p), '|')
    ensures WellSplit(p)
  {
  }

  /** For runtimes without "|" in names and any predictor: the two agree for a placed runtime if and only if it does not
      support the predictor, or the predictor's type label reads as one label or as a model type and a protocol. */
  lemma AgreeExactly(m: Constraints, specs: map<string, Runtime>, restProxy: bool, p: Predictor, n: string)
    requires AllPlain(specs) && IsConstraints(m, specs, restProxy) && n in specs && Placed(specs[n])
    ensures Agree(m, specs[n], restProxy, n, p) <==> !Supports(specs[n], p, restProxy, n) || WellSplit(p)
  {
    TypeLabelIsNotDefault(p);
    var k := TypeLabel(p);
    if k in m {
      RequiredParts(m, specs, restProxy, k);
      assert AskedFor(specs, restProxy, k, m[k]);
      var o :| o in specs && Placed(specs[o]) && Asks(specs[o], restProxy, o, k, m[k]);
      AskedIsWellSplit(specs[o], restProxy, o, p, m[k]);
    } else if Supports(specs[n], p, restProxy, n) && WellSplit(p) {
      WellSplitBringsKey(specs[n], restProxy, n, p);
      assert false;
    }
  }

  // ---------------------------------------------------------------------------
  // Inputs
  // ---------------------------------------------------------------------------

  const A := Runtime([Format("a", None, true)], ["x"], false, true)
  const B := Runtime([Format("a|pv:x", None, true)], [], false, true)
  const P := Predictor(None, "a", None, Some("x"))

  lemma BarLabels()
    ensures TypeLabel(P) == "mt:a|pv:x"
    ensures Asks(A, false, "a", TypeLabel(P), ["mt:a", "pv:x"]) && Asks(B, false, "b", TypeLabel(P), ["mt:a|pv:x"])
    ensures Supports(A, P, false, "a") && LabelSet(A, false, "a") == {"mt:a", "pv:x", "rt:a"}
  {
    assert TypeName("a") == "mt:a" && ProtocolLabel("x") == "pv:x" && TypeName("a|pv:x") == "mt:a|pv:x" == TypeLabel(P);
    assert A.formats[0] in A.formats && B.formats[0] in B.formats && A.protocols[0] in A.protocols;
    assert "mt:a" in FormatLabels(A.formats[0]) && "pv:x" in ProtocolsOf("x", false) && "mt:a|pv:x" in FormatLabels(B.formats[0]);
    assert "mt:a" in ModelTypeLabels(A) && "pv:x" in ProtocolLabels(A, false) && "mt:a|pv:x" in ModelTypeLabels(B);
    assert IsPair("mt:a", ProtocolLabels(A, false), TypeLabel(P), ["mt:a", "pv:x"]);
    SupportsExactly(A, P, false, "a");
    assert RuntimeLabel("a") == "rt:a";
  }

  /** A "|" in a runtime's format: for these two runtimes one order of the loops leaves constraints that agree with the
      controller about this predictor and runtime "a", and another leaves constraints under which model-mesh will not place
      there a predictor the controller counts. */
  lemma BarBreaksPlacement() returns (order: seq<Visit>, order': seq<Visit>)
    ensures var specs := map["a" := A, "b" := B];
            && IsOrder(order, specs, false) && Agree(Built(order), A, false, "a", P)
            && IsOrder(order', specs, false) && !Agree(Built(order'), A, false, "a", P)
  {
    BarLabels();
    var specs := map["a" := A, "b" := B];
    assert specs["a"] == A && specs["b"] == B;
    assert AskedFor(specs, false, TypeLabel(P), ["mt:a", "pv:x"]);
    assert AskedFor(specs, false, TypeLabel(P), ["mt:a|pv:x"]);
    order := OrderLeaving(specs, false, TypeLabel(P), ["mt:a", "pv:x"]);
    order' := OrderLeaving(specs, false, TypeLabel(P), ["mt:a|pv:x"]);
    assert "mt:a|pv:x" in Built(order')[TypeLabel(P)] && |"mt:a|pv:x"| == 9;
  }

  const Q := Predictor(Some("a|mt:a"), "z", None, None)

  lemma NamedParts()
    ensures Split(TypeLabel(Q), '|') == ["rt:a", "mt:a"]
  {
    SplitOnce("rt:a", '|', "mt:a", "");
    assert "" + "rt:a" == "rt:a" && TypeLabel(Q) == "rt:a" + ['|'] + "mt:a";
  }

  lemma NamedReads()
    ensures Supports(A, Q, false, "a") && !WellSplit(Q)
  {
    NamedParts();
    BarLabels();
    assert "rt:a"[0] == 'r';
  }

  lemma PlainA()
    ensures PlainRuntime(A) && Plain("a")
  {
  }

  /** A "|" in the runtime a predictor names: "a|mt:a" is read as two labels, both of runtime "a". */
  lemma BarInNamedRuntime(m: Constraints, specs: map<string, Runtime>)
    requires specs == map["a" := A] && IsConstraints(m, specs, false)
    ensures Supports(A, Q, false, "a") && !Agree(m, A, false, "a", Q)
  {
    NamedReads();
    PlainA();
    AgreeExactly(m, specs, false, Q, "a");
  }
}
