/** The failure reason a predictor shows, traced back to the runtimes that are defined. */
module FailureReasons {
  import opened Basics
  import opened Placement
  import S = PredictorStatus

  /** Model-mesh's message when no running instance has the labels a type requires. */
  function NoHome(typeLabel: string, required: string): string {
    S.NO_HOME + typeLabel + ": [" + required + "]"
  }

  /** A list of labels as model-mesh prints it. */
  function Listed(labels: seq<string>): string {
    if labels == [] then "" else if |labels| == 1 then labels[0] else labels[0] + ", " + Listed(labels[1..])
  }

  /** The labels a type requires, the default's when the type is unknown. */
  function Required(m: Constraints, typeLabel: string): seq<string> {
    if typeLabel in m then m[typeLabel] else [NO_RUNTIME_LABEL]
  }

  lemma SuffixExactly(prefix: string, required: string)
    requires '[' !in required
    ensures S.HasSuffix(prefix + "[" + required + "]", S.NO_RUNTIME) <==> required == NO_RUNTIME_LABEL
  {
    var s := prefix + "[" + required + "]";
    var k := |s| - |S.NO_RUNTIME|;
    assert S.NO_RUNTIME == "[" + NO_RUNTIME_LABEL + "]";
    if S.HasSuffix(s, S.NO_RUNTIME) {
      assert s[k] == s[k..][0] == '[';
      assert forall i :: |prefix| < i < |s| ==> s[i] == (required + "]")[i - |prefix| - 1];
      assert k <= |prefix|;
      assert forall i :: 0 < i < |S.NO_RUNTIME| ==> S.NO_RUNTIME[i] != '[';
      assert forall i :: k < i < |s| ==> s[i] == s[k..][i - k] != '[';
      assert s[|prefix|] == '[' && k == |prefix|;
      assert s[k..] == "[" + required + "]";
      assert required == s[k..][1..|s[k..]| - 1] == NO_RUNTIME_LABEL;
    }
    if required == NO_RUNTIME_LABEL {
      assert s[|prefix|..] == S.NO_RUNTIME;
    }
  }

  /** How such a message decodes, for labels without "[". */
  lemma NoHomeExactly(typeLabel: string, required: string)
    requires '[' !in required && |typeLabel| >= 3
    ensures S.DecodeFailure(NoHome(typeLabel, required)).reason ==
            if required != NO_RUNTIME_LABEL then S.RuntimeUnhealthy
            else if typeLabel[..3] == "rt:" then S.RuntimeNotRecognized
            else S.NoSupportingRuntime
  {
    var message := NoHome(typeLabel, required);
    var prefix := S.NO_HOME + typeLabel + ": ";
    assert message == prefix + "[" + required + "]";
    SuffixExactly(prefix, required);
    assert S.NO_HOME <= message;
    assert message[|S.NO_HOME|..|S.NO_HOME| + 3] == typeLabel[..3];
  }

  lemma TypeLabelStart(p: Predictor)
    ensures |TypeLabel(p)| >= 3 && (TypeLabel(p)[..3] == "rt:" <==> NamesRuntime(p))
  {
    assert RuntimeLabel("")[..3] == "rt:";
    if NamesRuntime(p) {
      assert TypeLabel(p)[..3] == "rt:";
    } else {
      assert TypeLabel(p)[0] == 'm';
    }
  }

  lemma {:induction false} ListedStart(labels: seq<string>)
    requires labels != [] && labels[0] != "" && forall l :: l in labels ==> '[' !in l
    ensures '[' !in Listed(labels) && Listed(labels) != "" && Listed(labels)[0] == labels[0][0]
    decreases |labels|
  {
    if |labels| > 1 {
      if labels[1] != "" {
        ListedStart(labels[1..]);
      }
      NoBracketListed(labels[1..]);
    }
  }

  lemma {:induction false} NoBracketListed(labels: seq<string>)
    requires forall l :: l in labels ==> '[' !in l
    ensures '[' !in Listed(labels)
    decreases |labels|
  {
    if |labels| > 1 {
      NoBracketListed(labels[1..]);
    }
  }

  /** Over every set of runtimes and every predictor with names free of "|" and "[": when model-mesh finds no instance
      for the predictor's type, the reason shown says whether a runtime for it is defined. It is RuntimeUnhealthy exactly
      when some enabled multi-model runtime supports the predictor; otherwise it tells a runtime asked for by name from a
      model type nobody supports. */
  lemma ReasonTellsTheTruth(m: Constraints, specs: map<string, Runtime>, restProxy: bool, p: Predictor)
    requires AllPlain(specs) && PlainPredictor(p) && IsConstraints(m, specs, restProxy)
    requires '[' !in TypeLabel(p)
    ensures var message := NoHome(TypeLabel(p), Listed(Required(m, TypeLabel(p))));
            S.Decode(Some(S.Model(S.LoadingFailed, [message], []))).reason ==
            if exists n :: n in specs && !specs[n].disabled && specs[n].multiModel && Supports(specs[n], p, restProxy, n)
            then S.RuntimeUnhealthy
            else if p.runtime.Some? && p.runtime.value != "" then S.RuntimeNotRecognized
            else S.NoSupportingRuntime
  {
    KnownExactly(m, specs, restProxy, p);
    TypeLabelStart(p);
    var required := Required(m, TypeLabel(p));
    if TypeLabel(p) in m {
      TypeLabelIsNotDefault(p);
      RequiredParts(m, specs, restProxy, TypeLabel(p));
      PartsOf(p);
      PartsLackBracket(p);
      ListedStart(required);
    }
    NoHomeExactly(TypeLabel(p), Listed(required));
  }

  lemma PartsLackBracket(p: Predictor)
    requires PlainPredictor(p) && '[' !in TypeLabel(p)
    ensures forall l :: l in Split(TypeLabel(p), '|') ==> '[' !in l
    ensures var parts := Split(TypeLabel(p), '|'); parts != [] && parts[0] != "" && parts[0][0] != '_'
  {
    PartsOf(p);
    if !NamesRuntime(p) && p.protocol.Some? {
      assert TypeLabel(p) == ModelLabel(p) + "|" + ProtocolLabel(p.protocol.value);
    }
  }
}
