/** Names that cross the model-mesh registry: concrete model ids, the reconcile requests decoded from
    them, and the etcd prefixes under which they are watched. */
module ModelNames {
  import opened Basics
  import opened Text

  // ---------------------------------------------------------------------------
  // Concrete model ids and the events decoded from them
  // ---------------------------------------------------------------------------

  const HASH_LENGTH: nat := 10

  /** Source id of Predictor resources, used when a request names no source. */
  const PREDICTOR_SOURCE: string := "ksp"

  /** What Hash returns: five bytes in hexadecimal. */
  ghost predicate IsHash(h: string) {
    |h| == HASH_LENGTH && forall i :: 0 <= i < |h| ==> '0' <= h[i] <= '9' || 'a' <= h[i] <= 'f'
  }

  /** concreteModelName */
  function ConcreteModelName(name: string, source: string, hash: string): string {
    name + "__" + source + "-" + hash
  }

  /** The predictor name and source id the model listener reads out of a registry key; None when it ignores the key. */
  function DecodeModelKey(key: string): Option<(string, string)> {
    var owner := LastIndex(key, "__") + 2;
    var hash := |key| - (HASH_LENGTH + 1);
    if owner > 2 && hash > owner && key[hash] == '-' then Some((key[..owner - 2], key[owner..hash])) else None
  }

  /** The namespace put in an event, with the source id in front unless there is none. */
  function EventNamespace(source: string, namespace: string): string {
    if source == "" then namespace else source + "_" + namespace
  }

  function ResolveSource(request: Name, defaultSource: string): (Name, string) {
    var i := LastIndex(request.namespace, "_");
    var resolved := Name(request.namespace[i + 1..], request.name);
    (resolved, if i <= 0 then defaultSource else request.namespace[..i])
  }

  /** From a concrete model's registry key to the predictor reconciled for it. */
  function Reconciled(key: string, namespace: string): Option<(Name, string)> {
    match DecodeModelKey(key)
    case None => None
    case Some((name, source)) => Some(ResolveSource(Name(source + "_" + namespace, name), PREDICTOR_SOURCE))
  }

  /** The characters after the first underscore of the separator are those of "_" and the source id. */
  lemma SeparatorAfter(name: string, source: string, hash: string, j: int)
    requires IsHash(hash) && |name| < j
    ensures OccursAt(ConcreteModelName(name, source, hash), "__", j) <==> OccursAt("_" + source, "__", j - |name| - 1)
  {
    var key, tail, k := ConcreteModelName(name, source, hash), "_" + source, j - |name| - 1;
    assert forall l :: 0 <= l < |tail| ==> key[|name| + 1 + l] == tail[l];
    var rest := key[|name| + 1 + |tail|..];
    assert rest == "-" + hash;
    if j + 2 <= |key| {
      assert key[j..j + 2] == [key[j], key[j + 1]];
      if k + 2 <= |tail| {
        assert tail[k..k + 2] == [tail[k], tail[k + 1]];
      } else {
        assert key[j + 1] == rest[k + 1 - |tail|];
        assert rest[k + 1 - |tail|] != '_';
      }
    }
  }

  /** The separator of a concrete model id is its last "__" exactly when the source id neither holds one nor starts one. */
  lemma SeparatorIsLast(name: string, source: string, hash: string)
    requires IsHash(hash)
    ensures var i := LastIndex(ConcreteModelName(name, source, hash), "__");
            |name| <= i && (i == |name| <==> !Contains("_" + source, "__"))
  {
    var key, tail := ConcreteModelName(name, source, hash), "_" + source;
    assert OccursAt(key, "__", |name|);
    forall j | |name| < j ensures OccursAt(key, "__", j) <==> OccursAt(tail, "__", j - |name| - 1) {
      SeparatorAfter(name, source, hash, j);
    }
    var i := LastIndex(key, "__");
    if Contains(tail, "__") {
      var k :| OccursAt(tail, "__", k);
      assert OccursAt(key, "__", k + |name| + 1);
    }
  }

  /** A concrete model id decodes to its own predictor name and source id exactly when the name and the source id are
      not empty and no "__" lies in, or starts just before, the source id. */
  lemma DecodeExactly(name: string, source: string, hash: string)
    requires IsHash(hash)
    ensures DecodeModelKey(ConcreteModelName(name, source, hash)) == Some((name, source)) <==>
            name != "" && source != "" && !Contains("_" + source, "__")
    ensures var d := DecodeModelKey(ConcreteModelName(name, source, hash));
            d.Some? && d.value != (name, source) ==> d.value.0 != name
  {
    var key := ConcreteModelName(name, source, hash);
    SeparatorIsLast(name, source, hash);
    assert key[|key| - (HASH_LENGTH + 1)] == '-';
    if LastIndex(key, "__") == |name| {
      assert key[..|name|] == name;
      assert key[|name| + 2..|name| + 2 + |source|] == source;
    }
  }

  lemma LastIndexAt(s: string, sub: string, i: int)
    requires OccursAt(s, sub, i) && forall j :: i < j ==> !OccursAt(s, sub, j)
    ensures LastIndex(s, sub) == i
  {
  }

  lemma DecodedParts(key: string, name: string, source: string) returns (hash: string)
    requires DecodeModelKey(key) == Some((name, source))
    ensures name != "" && source != "" && |hash| == HASH_LENGTH && key == ConcreteModelName(name, source, hash)
    ensures LastIndex(key, "__") == |name|
  {
    var owner, dash := LastIndex(key, "__") + 2, |key| - (HASH_LENGTH + 1);
    hash := key[dash + 1..];
    assert key == key[..owner - 2] + key[owner - 2..owner] + key[owner..dash] + key[dash..dash + 1] + key[dash + 1..];
    assert key[dash..dash + 1] == "-";
  }

  lemma PartsDecode(key: string, name: string, source: string, hash: string)
    requires name != "" && source != "" && |hash| == HASH_LENGTH && key == ConcreteModelName(name, source, hash)
    requires forall j :: |name| < j ==> !OccursAt(key, "__", j)
    ensures DecodeModelKey(key) == Some((name, source))
  {
    assert key[|name|..|name| + 2] == "__";
    LastIndexAt(key, "__", |name|);
    var owner, dash := |name| + 2, |key| - (HASH_LENGTH + 1);
    assert key[dash] == '-' && key[..owner - 2] == name && key[owner..dash] == source;
  }

  /** `key` is a name, "__", a source id, "-" and ten more characters, and has no later "__". */
  ghost predicate IsModelKey(key: string, name: string, source: string, hash: string) {
    && name != "" && source != "" && |hash| == HASH_LENGTH && key == ConcreteModelName(name, source, hash)
    && forall j :: |name| < j ==> !OccursAt(key, "__", j)
  }

  /** Which registry keys the model listener recognises, and as what: those made of a name, "__", a source id, "-" and ten
      more characters, cut at the last "__".  It ignores all others. */
  lemma RecognisedExactly(key: string, name: string, source: string)
    ensures DecodeModelKey(key) == Some((name, source)) <==> exists hash :: IsModelKey(key, name, source, hash)
  {
    if DecodeModelKey(key) == Some((name, source)) {
      var hash := DecodedParts(key, name, source);
      assert IsModelKey(key, name, source, hash);
    }
    if hash :| IsModelKey(key, name, source, hash) {
      PartsDecode(key, name, source, hash);
    }
  }

  /** Without "_" in the namespace, the last "_" of an event's namespace is the one put after the source id. */
  lemma LastUnderscore(source: string, namespace: string)
    requires '_' !in namespace
    ensures LastIndex(EventNamespace(source, namespace), "_") == if source == "" then -1 else |source|
  {
    var s := EventNamespace(source, namespace);
    var start := |s| - |namespace|;
    forall j | start <= j ensures !OccursAt(s, "_", j) {
      if j < |s| {
        assert s[j] == namespace[j - start];
        assert s[j..j + 1][0] == s[j];
      }
    }
    if source != "" {
      assert s[|source|..|source| + 1] == "_";
      assert OccursAt(s, "_", |source|);
    }
  }

  lemma UnderscoreWithin(source: string, namespace: string)
    requires '_' in namespace
    ensures var s := EventNamespace(source, namespace);
            LastIndex(s, "_") >= |s| - |namespace|
  {
    var s := EventNamespace(source, namespace);
    var start := |s| - |namespace|;
    var k :| 0 <= k < |namespace| && namespace[k] == '_';
    assert s[start + k] == '_';
    assert OccursAt(s, "_", start + k);
  }

  /** An event's namespace resolves to the original namespace and source id exactly when the namespace holds no "_". */
  lemma ResolveExactly(source: string, namespace: string, name: string, defaultSource: string)
    ensures ResolveSource(Name(EventNamespace(source, namespace), name), defaultSource) ==
            (Name(namespace, name), if source == "" then defaultSource else source) <==>
            '_' !in namespace
  {
    var s := EventNamespace(source, namespace);
    if '_' in namespace {
      UnderscoreWithin(source, namespace);
      assert |s[LastIndex(s, "_") + 1..]| < |namespace|;
    } else {
      LastUnderscore(source, namespace);
      if source != "" {
        assert s[|source| + 1..] == namespace && s[..|source|] == source;
      }
    }
  }

  /** How any request resolves: its name stays; what follows the last "_" of its namespace is the namespace; what precedes
      it is the source id, the default when that is empty or there is no "_". */
  lemma ResolveMeans(request: Name, defaultSource: string, namespace: string, source: string)
    ensures ResolveSource(request, defaultSource) == (Name(namespace, request.name), source) <==>
            ReadsAs(request.namespace, defaultSource, namespace, source)
  {
    if ResolveSource(request, defaultSource) == (Name(namespace, request.name), source) {
      CutAtLast(request.namespace);
    }
    if ReadsAs(request.namespace, defaultSource, namespace, source) {
      ReadSource(request.namespace, defaultSource, namespace, source);
    }
  }

  /** The namespace of a request, with a source id in front, with "_" alone in front, or by itself. */
  ghost predicate ReadsAs(s: string, defaultSource: string, namespace: string, source: string) {
    '_' !in namespace &&
    (|| (source != "" && s == source + "_" + namespace)
     || (source == defaultSource && (s == namespace || s == "_" + namespace)))
  }

  lemma ReadSource(s: string, defaultSource: string, namespace: string, source: string)
    requires ReadsAs(s, defaultSource, namespace, source)
    ensures var i := LastIndex(s, "_"); s[i + 1..] == namespace && source == if i <= 0 then defaultSource else s[..i]
  {
    if source != "" && s == source + "_" + namespace {
      LastCut(source, namespace);
    } else if s == "_" + namespace {
      LastCut("", namespace);
      assert "" + "_" + namespace == s;
    } else {
      NoCut(s);
    }
  }

  lemma CutAtLast(s: string)
    ensures var i := LastIndex(s, "_");
            && i < |s| && '_' !in s[i + 1..] && (i == -1 ==> s[i + 1..] == s)
            && (0 <= i ==> s == s[..i] + "_" + s[i + 1..]) && (i == 0 ==> s == "_" + s[i + 1..])
  {
    var i := LastIndex(s, "_");
    forall k | i < k < |s| ensures s[k] != '_' {
      assert s[k..k + 1] == [s[k]] && !OccursAt(s, "_", k);
    }
    if 0 <= i {
      assert s[i..i + 1] == "_";
    }
  }

  lemma LastCut(a: string, b: string)
    requires '_' !in b
    ensures var s := a + "_" + b; LastIndex(s, "_") == |a| && s[..|a|] == a && s[|a| + 1..] == b
  {
    var s := a + "_" + b;
    assert s[|a|..|a| + 1] == "_";
    forall j | |a| < j ensures !OccursAt(s, "_", j) {
      if j < |s| {
        assert s[j] == b[j - |a| - 1] && s[j..j + 1][0] == s[j];
      }
    }
    LastIndexAt(s, "_", |a|);
  }

  lemma NoCut(s: string)
    requires '_' !in s
    ensures LastIndex(s, "_") == -1
  {
    forall j ensures !OccursAt(s, "_", j) {
      if 0 <= j < |s| {
        assert s[j..j + 1][0] == s[j];
      }
    }
  }

  /** Naming a concrete model, decoding its registry key and resolving the event gives back the predictor's name,
      namespace and source id, exactly under conditions on those alone. */
  lemma RoundTripExactly(name: string, namespace: string, source: string, hash: string)
    requires IsHash(hash)
    ensures Reconciled(ConcreteModelName(name, source, hash), namespace) == Some((Name(namespace, name), source)) <==>
            name != "" && source != "" && !Contains("_" + source, "__") && '_' !in namespace
  {
    DecodeExactly(name, source, hash);
    ResolveExactly(source, namespace, name, PREDICTOR_SOURCE);
  }

  // ---------------------------------------------------------------------------
  // Watched prefixes
  // ---------------------------------------------------------------------------

  const MODELMESH_PREFIX: string := "mm"

  /** What a watcher is started for. */
  datatype Target = Target(namespace: string, service: string, registry: string)

  function RootFor(root: string, controller: string, namespace: string): string {
    if namespace != controller then root + "/mm_ns/" + namespace else root
  }

  /** The prefix refreshWatches gives a watcher. */
  function WatchPrefix(root: string, controller: string, t: Target): string {
    RootFor(root, controller, t.namespace) + "/" + MODELMESH_PREFIX + "/" + t.service + "/" + t.registry + "/"
  }

  ghost predicate SlashFree(t: Target) {
    '/' !in t.namespace && '/' !in t.service && '/' !in t.registry
  }

  /** The same prefix as path components after the root. */
  function Path(controller: string, t: Target): string {
    var tail := "mm" + "/" + (t.service + "/" + (t.registry + "/" + ""));
    if t.namespace != controller then "mm_ns" + "/" + (t.namespace + "/" + tail) else tail
  }

  lemma PrefixIsPath(root: string, controller: string, t: Target)
    ensures WatchPrefix(root, controller, t) == root + "/" + Path(controller, t)
  {
    var rp, s, r := RootFor(root, controller, t.namespace), t.service, t.registry;
    var tail := "mm" + "/" + (s + "/" + (r + "/" + ""));
    TailAssociates(rp, s, r);
    if t.namespace != controller {
      NamespaceAssociates(root, t.namespace, tail);
    }
  }

  lemma TailAssociates(rp: string, s: string, r: string)
    ensures rp + "/" + "mm" + "/" + s + "/" + r + "/" == rp + "/" + ("mm" + "/" + (s + "/" + (r + "/" + "")))
  {
    var a := r + "/" + "";
    var b := s + "/" + a;
    assert rp + "/" + "mm" + "/" + s + "/" + r + "/" == rp + "/" + "mm" + "/" + s + "/" + a;
    assert rp + "/" + "mm" + "/" + s + "/" + a == rp + "/" + "mm" + "/" + b;
    assert rp + "/" + "mm" + "/" + b == rp + "/" + ("mm" + "/" + b);
  }

  lemma NamespaceAssociates(root: string, n: string, tail: string)
    ensures (root + "/mm_ns/" + n) + "/" + tail == root + "/" + ("mm_ns" + "/" + (n + "/" + tail))
  {
    assert "/mm_ns/" == "/" + "mm_ns" + "/";
    assert (root + "/mm_ns/" + n) + "/" + tail == root + "/mm_ns/" + (n + "/" + tail);
  }

  lemma TailsPrefixFree(s: string, r: string, s': string, r': string)
    requires '/' !in s && '/' !in s' && '/' !in r && '/' !in r'
    requires "mm" + "/" + (s + "/" + (r + "/" + "")) <= "mm" + "/" + (s' + "/" + (r' + "/" + ""))
    ensures s == s' && r == r'
  {
    SplitAtSeparator('/', "mm", s + "/" + (r + "/" + ""), "mm", s' + "/" + (r' + "/" + ""));
    SplitAtSeparator('/', s, r + "/" + "", s', r' + "/" + "");
    SplitAtSeparator('/', r, "", r', "");
  }

  /** No watched prefix extends another, whether they belong to the controller's namespace or to others. */
  lemma PrefixFree(root: string, controller: string, t: Target, t': Target)
    requires SlashFree(t) && SlashFree(t')
    requires WatchPrefix(root, controller, t) <= WatchPrefix(root, controller, t')
    ensures t == t'
  {
    PrefixIsPath(root, controller, t);
    PrefixIsPath(root, controller, t');
    var p, p' := Path(controller, t), Path(controller, t');
    assert p == (root + "/" + p)[|root| + 1..] && p' == (root + "/" + p')[|root| + 1..];
    assert p <= p';
    var tail := "mm" + "/" + (t.service + "/" + (t.registry + "/" + ""));
    var tail' := "mm" + "/" + (t'.service + "/" + (t'.registry + "/" + ""));
    if t.namespace != controller {
      if t'.namespace != controller {
        SplitAtSeparator('/', "mm_ns", t.namespace + "/" + tail, "mm_ns", t'.namespace + "/" + tail');
        SplitAtSeparator('/', t.namespace, tail, t'.namespace, tail');
      } else {
        SplitAtSeparator('/', "mm_ns", t.namespace + "/" + tail, "mm", t'.service + "/" + (t'.registry + "/" + ""));
        assert false;
      }
    } else if t'.namespace != controller {
      SplitAtSeparator('/', "mm", t.service + "/" + (t.registry + "/" + ""), "mm_ns", t'.namespace + "/" + tail');
      assert false;
    }
    TailsPrefixFree(t.service, t.registry, t'.service, t'.registry);
  }

  /** So no etcd key reaches the watchers of two targets. */
  lemma KeyReachesOneWatcher(root: string, controller: string, t: Target, t': Target, key: string)
    requires SlashFree(t) && SlashFree(t')
    requires WatchPrefix(root, controller, t) <= key && WatchPrefix(root, controller, t') <= key
    ensures t == t'
  {
    var p, p' := WatchPrefix(root, controller, t), WatchPrefix(root, controller, t');
    if |p| <= |p'| {
      assert p == key[..|p|] == p'[..|p|];
      PrefixFree(root, controller, t, t');
    } else {
      assert p' == key[..|p'|] == p[..|p'|];
      PrefixFree(root, controller, t', t);
    }
  }
}
