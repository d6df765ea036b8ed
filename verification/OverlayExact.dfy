/** Exactly when the manifest merge panics, for any source and any overlay, and when the loops may. */
module OverlayExact {
  import opened Basics
  import opened Overlay

  // ---------------------------------------------------------------------------
  // A value and the overlays merged into it one after the other
  // ---------------------------------------------------------------------------

  /** The first value with the others merged into it in turn; None once one panics. */
  function Stacked(us: seq<Value>): Option<Value>
    requires us != []
  {
    var last := |us| - 1;
    if last == 0 then Some(us[0])
    else
      match Stacked(us[..last])
      case None => None
      case Some(w) => MergeValue(w, us[last])
  }

  /** Where the merging starts: a string is replaced by what comes next. */
  function Base(us: seq<Value>): (bs: seq<Value>)
    requires us != []
    ensures bs != [] && (bs[0].Str? ==> |bs| == 1)
  {
    if us[0].Str? && |us| > 1 then Base(us[1..]) else us
  }

  /** The overlay is for something else than the first of the maps that says what it is for. */
  predicate ForAnother(us: seq<Value>, o: Value)
    decreases |us|, 1
  {
    o.Map? && "name" in o.m &&
    var names := Under(us, "name");
    names != [] && names[0].Str? && names[0] != o.m["name"]
  }

  /** What the maps have under a key, those for something else left out. */
  function Under(us: seq<Value>, k: string): seq<Value>
    decreases |us|, 0
  {
    if us == [] then []
    else
      var before, u := us[..|us| - 1], us[|us| - 1];
      Under(before, k) + if u.Map? && k in u.m && !ForAnother(before, u) then [u.m[k]] else []
  }

  /** The elements of the lists after the first. */
  function Elements(us: seq<Value>): seq<Value> {
    if |us| <= 1 then []
    else Elements(us[..|us| - 1]) + if us[|us| - 1].List? then us[|us| - 1].elems else []
  }

  function SameNamed(es: seq<Value>, name: Value): seq<Value> {
    if es == [] then []
    else
      var e := es[|es| - 1];
      SameNamed(es[..|es| - 1], name) + if e.Map? && NameOf(e) == name then [e] else []
  }

  // ---------------------------------------------------------------------------
  // The condition
  // ---------------------------------------------------------------------------

  /** Nothing stands in the way of the overlay after the others: where the first value that is not a string is a map, the
      overlay is one, and so on under each of its keys; where it is a list, the overlay is one, each of whose elements is a
      map with a name that can be compared with those up to its match, empty if there is no match, and so on into the match
      after the earlier elements of the same name. */
  predicate Mergeable(us: seq<Value>, ov: Value)
    requires us != []
    decreases ov, 0
  {
    var bs := Base(us);
    match bs[0]
    case Str(_) => true
    case Map(_) =>
      ov.Map? && (ForAnother(bs, ov) || forall k :: k in ov.m && Under(bs, k) != [] ==> Mergeable(Under(bs, k), ov.m[k]))
    case List(elems) =>
      ov.List? && forall j :: 0 <= j < |ov.elems| ==> MergeableInto(elems, Elements(bs) + ov.elems[..j], ov.elems[j])
    case _ => false
  }

  predicate MergeableInto(elems: seq<Value>, before: seq<Value>, e: Value)
    decreases e, 1
  {
    e.Map? &&
    match Locate(elems, NameOf(e), 0)
    case Panics => false
    case Missing => e.m == map[]
    case At(i) => Mergeable([elems[i]] + SameNamed(before, NameOf(e)), e)
  }

  // ---------------------------------------------------------------------------
  // Strings
  // ---------------------------------------------------------------------------

  lemma StackedAppend(us: seq<Value>, u: Value)
    requires us != []
    ensures Stacked(us + [u]) == if Stacked(us).None? then None else MergeValue(Stacked(us).value, u)
  {
    assert (us + [u])[..|us|] == us;
  }

  lemma {:induction false} StringReplaced(us: seq<Value>)
    requires |us| > 1 && us[0].Str?
    ensures Stacked(us) == Stacked(us[1..])
    decreases |us|
  {
    var before, u := us[..|us| - 1], us[|us| - 1];
    if |us| == 2 {
      assert Stacked(before) == Some(us[0]);
    } else {
      StringReplaced(before);
      assert us[1..] == before[1..] + [u];
      StackedAppend(before[1..], u);
    }
  }

  lemma {:induction false} BaseStacks(us: seq<Value>)
    requires us != []
    ensures Stacked(us) == Stacked(Base(us))
    decreases |us|
  {
    if us[0].Str? && |us| > 1 {
      StringReplaced(us);
      BaseStacks(us[1..]);
    }
  }

  lemma MergeKeepsKind(v: Value, ov: Value)
    requires !v.Str? && MergeValue(v, ov).Some?
    ensures var w := MergeValue(v, ov).value; !w.Str? && w.Map? == v.Map? && w.List? == v.List?
  {
    if v.Map? {
      assert MergeValue(v, ov) == MergeMaps(v, ov);
    }
  }

  /** What is not a string stays of its kind. */
  lemma {:induction false} KindKept(us: seq<Value>)
    requires us != [] && !us[0].Str? && Stacked(us).Some?
    ensures var w := Stacked(us).value; !w.Str? && w.Map? == us[0].Map? && w.List? == us[0].List?
    decreases |us|
  {
    if |us| > 1 {
      KindKept(us[..|us| - 1]);
      MergeKeepsKind(Stacked(us[..|us| - 1]).value, us[|us| - 1]);
    }
  }

  lemma {:induction false} SameString(us: seq<Value>)
    requires us != [] && us[0].Str? && forall u :: u in us ==> u == us[0]
    ensures Stacked(us) == Some(us[0])
    decreases |us|
  {
    if |us| > 1 {
      var before := us[..|us| - 1];
      forall u | u in before ensures u == before[0] {
        assert u in us;
      }
      SameString(before);
      assert us[|us| - 1] in us;
    }
  }

  // ---------------------------------------------------------------------------
  // Maps
  // ---------------------------------------------------------------------------

  /** The key of the map merged so far. */
  ghost predicate KeyStacked(us: seq<Value>, w: Value, k: string)
    requires w.Map?
  {
    (k in w.m <==> Under(us, k) != []) && (k in w.m ==> Stacked(Under(us, k)) == Some(w.m[k]))
  }

  lemma {:induction false} NamesAgree(us: seq<Value>)
    ensures var names := Under(us, "name"); names != [] && names[0].Str? ==> forall n :: n in names ==> n == names[0]
    decreases |us|
  {
    if us != [] {
      NamesAgree(us[..|us| - 1]);
    }
  }

  lemma ClashesExactly(us: seq<Value>, w: Value, o: Value)
    requires w.Map? && o.Map? && KeyStacked(us, w, "name")
    ensures NameClash(w, o) <==> ForAnother(us, o)
  {
    var names := Under(us, "name");
    if names != [] {
      if names[0].Str? {
        NamesAgree(us);
        SameString(names);
      } else {
        KindKept(names);
      }
    }
  }

  lemma UnderAppend(us: seq<Value>, o: Value, k: string)
    requires o.Map?
    ensures Under(us + [o], k) == if k in o.m && !ForAnother(us, o) then Under(us, k) + [o.m[k]] else Under(us, k)
  {
    assert (us + [o])[..|us|] == us;
  }

  lemma MergedKey(w: Value, o: Value, k: string)
    requires w.Map? && o.Map? && !NameClash(w, o) && MergeMaps(w, o).Some?
    ensures var r := MergeMaps(w, o).value;
            && r.Map? && (k in r.m <==> k in w.m || k in o.m)
            && (k in r.m ==>
                  Some(r.m[k]) == if k !in o.m then Some(w.m[k]) else if k !in w.m then Some(o.m[k]) else MergeValue(w.m[k], o.m[k]))
  {
    if k in w.m && k in o.m {
      assert MergeValue(w.m[k], o.m[k]).Some?;
    }
  }

  lemma KeyStackedFurther(us: seq<Value>, w: Value, o: Value, k: string)
    requires w.Map? && o.Map? && !NameClash(w, o) && MergeMaps(w, o).Some?
    requires KeyStacked(us, w, k) && !ForAnother(us, o)
    ensures MergeMaps(w, o).value.Map? && KeyStacked(us + [o], MergeMaps(w, o).value, k)
  {
    UnderAppend(us, o, k);
    MergedKey(w, o, k);
    if k in o.m && k in w.m {
      StackedAppend(Under(us, k), o.m[k]);
    }
  }

  lemma {:induction false} MapStacked(us: seq<Value>, k: string)
    requires us != [] && us[0].Map? && Stacked(us).Some?
    ensures Stacked(us).value.Map? && KeyStacked(us, Stacked(us).value, k)
    decreases |us|
  {
    if |us| == 1 {
      assert us[..0] == [] && Under([], k) == [] && Under([], "name") == [];
    } else {
      var before, o := us[..|us| - 1], us[|us| - 1];
      assert us == before + [o];
      MapStacked(before, k);
      MapStacked(before, "name");
      var w := Stacked(before).value;
      assert Stacked(us) == MergeMaps(w, o);
      ClashesExactly(before, w, o);
      if NameClash(w, o) {
        UnderAppend(before, o, k);
      } else {
        KeyStackedFurther(before, w, o, k);
      }
    }
  }

  // ---------------------------------------------------------------------------
  // Lists
  // ---------------------------------------------------------------------------

  lemma {:induction false} MergeListsAppend(source: seq<Value>, a: seq<Value>, b: seq<Value>)
    ensures MergeLists(source, a + b) ==
            if MergeLists(source, a).None? then None else MergeLists(MergeLists(source, a).value, b)
    decreases |a|
  {
    if a == [] {
      assert a + b == b;
    } else {
      assert (a + b)[1..] == a[1..] + b;
      if MergeElement(source, a[0]).Some? {
        MergeListsAppend(MergeElement(source, a[0]).value, a[1..], b);
      }
    }
  }

  lemma {:induction false} ListStacked(us: seq<Value>)
    requires us != [] && us[0].List? && Stacked(us).Some?
    ensures Stacked(us).value.List? && MergeLists(us[0].elems, Elements(us)) == Some(Stacked(us).value.elems)
    decreases |us|
  {
    if |us| > 1 {
      var before, o := us[..|us| - 1], us[|us| - 1];
      ListStacked(before);
      MergeListsAppend(us[0].elems, Elements(before), o.elems);
    }
  }

  /** The same elements, or maps with the same name. */
  ghost predicate AlikeByName(a: seq<Value>, b: seq<Value>) {
    |a| == |b| && forall i :: 0 <= i < |a| ==> a[i] == b[i] || SameName(a[i], b[i])
  }

  lemma {:induction false} LocateAlike(a: seq<Value>, b: seq<Value>, name: Value, i: nat)
    requires AlikeByName(a, b) && i <= |a|
    ensures Locate(a, name, i) == Locate(b, name, i)
    decreases |a| - i
  {
    if i < |a| {
      assert a[i] == b[i] || SameName(a[i], b[i]);
      LocateAlike(a, b, name, i + 1);
    }
  }

  lemma {:induction false} LocateComparable(a: seq<Value>, name: Value, i: nat)
    requires i <= |a| && Locate(a, name, i).At?
    ensures !name.Map? && !name.List?
    decreases |a| - i
  {
    if Locate(a, name, i).i != i {
      LocateComparable(a, name, i + 1);
    }
  }

  /** An element that is merged keeps its name, whatever kind of name it is. */
  lemma MatchKeepsName(s: Value, o: Value)
    requires s.Map? && o.Map? && "name" in s.m && NameOf(s) == NameOf(o) && !NameOf(o).Map? && !NameOf(o).List?
    ensures var r := MergeMaps(s, o); r.Some? ==> r.value.Map? && SameName(s, r.value)
  {
    var r := MergeMaps(s, o);
    if r.Some? && "name" in o.m && !NameClash(s, o) {
      assert MergeValue(s.m["name"], o.m["name"]).Some?;
    }
  }

  lemma ElementKeepsNames(source: seq<Value>, o: Value)
    requires MergeElement(source, o).Some?
    ensures AlikeByName(source, MergeElement(source, o).value)
  {
    var at := Locate(source, NameOf(o), 0);
    if at.At? {
      LocateComparable(source, NameOf(o), 0);
      MatchKeepsName(source[at.i], o);
    }
  }

  /** Each element is what the earlier overlay elements of its name have made of it. */
  ghost predicate ElementsStacked(source: seq<Value>, before: seq<Value>, t: seq<Value>) {
    && AlikeByName(source, t)
    && forall name :: Locate(source, name, 0).At? ==>
                        var i := Locate(source, name, 0).i;
                        Stacked([source[i]] + SameNamed(before, name)) == Some(t[i])
  }

  lemma StackOneMore(source: seq<Value>, before: seq<Value>, t: seq<Value>, e: Value, name: Value)
    requires ElementsStacked(source, before, t) && MergeElement(t, e).Some? && Locate(source, name, 0).At?
    ensures var i := Locate(source, name, 0).i;
            i < |MergeElement(t, e).value| &&
            Stacked([source[i]] + SameNamed(before + [e], name)) == Some(MergeElement(t, e).value[i])
  {
    var i := Locate(source, name, 0).i;
    LocateAlike(source, t, NameOf(e), 0);
    assert (before + [e])[..|before|] == before;
    var us := [source[i]] + SameNamed(before, name);
    assert Stacked(us) == Some(t[i]);
    if NameOf(e) == name {
      assert [source[i]] + SameNamed(before + [e], name) == us + [e];
      StackedAppend(us, e);
      assert t[i] == source[i] || SameName(source[i], t[i]);
    } else {
      assert [source[i]] + SameNamed(before + [e], name) == us;
    }
  }

  lemma {:induction false} ListElementsStacked(source: seq<Value>, before: seq<Value>)
    requires MergeLists(source, before).Some?
    ensures ElementsStacked(source, before, MergeLists(source, before).value)
    decreases |before|
  {
    if before != [] {
      var init, e := before[..|before| - 1], before[|before| - 1];
      assert before == init + [e];
      MergeListsAppend(source, init, [e]);
      ListElementsStacked(source, init);
      var t := MergeLists(source, init).value;
      assert MergeLists(t, [e]) == MergeElement(t, e);
      ElementKeepsNames(t, e);
      var t' := MergeElement(t, e).value;
      AlikeTransitive(source, t, t');
      forall name | Locate(source, name, 0).At?
        ensures Stacked([source[Locate(source, name, 0).i]] + SameNamed(before, name)) == Some(t'[Locate(source, name, 0).i])
      {
        StackOneMore(source, init, t, e, name);
      }
    }
  }

  lemma AlikeTransitive(a: seq<Value>, b: seq<Value>, c: seq<Value>)
    requires AlikeByName(a, b) && AlikeByName(b, c)
    ensures AlikeByName(a, c)
  {
    forall i | 0 <= i < |a| ensures a[i] == c[i] || SameName(a[i], c[i]) {
      assert a[i] == b[i] || SameName(a[i], b[i]);
      assert b[i] == c[i] || SameName(b[i], c[i]);
    }
  }

  // ---------------------------------------------------------------------------
  // Exactly when the merge panics
  // ---------------------------------------------------------------------------

  lemma {:induction false} ElementPanicsExactly(source: seq<Value>, before: seq<Value>, e: Value)
    requires MergeLists(source, before).Some?
    ensures MergeElement(MergeLists(source, before).value, e).Some? <==> MergeableInto(source, before, e)
    decreases e, 4
  {
    var t := MergeLists(source, before).value;
    ListElementsStacked(source, before);
    if e.Map? {
      LocateAlike(source, t, NameOf(e), 0);
      var at := Locate(source, NameOf(e), 0);
      if at.At? {
        var us := [source[at.i]] + SameNamed(before, NameOf(e));
        assert Stacked(us) == Some(t[at.i]);
        PanicsAfterExactly(us, e);
        assert MergeValue(t[at.i], e) == MergeMaps(t[at.i], e);
      }
    }
  }

  lemma {:induction false} ListPanicsExactly(source: seq<Value>, before: seq<Value>, overlay: seq<Value>)
    requires MergeLists(source, before).Some?
    ensures MergeLists(MergeLists(source, before).value, overlay).Some? <==>
            forall j :: 0 <= j < |overlay| ==> MergeableInto(source, before + overlay[..j], overlay[j])
    decreases overlay, 2
  {
    if overlay != [] {
      var t, last := MergeLists(source, before).value, |overlay| - 1;
      var init, e := overlay[..last], overlay[last];
      assert overlay == init + [e];
      MergeListsAppend(t, init, [e]);
      ListPanicsExactly(source, before, init);
      assert forall j :: 0 <= j < last ==> init[..j] == overlay[..j] && init[j] == overlay[j];
      if MergeLists(t, init).Some? {
        var t' := MergeLists(t, init).value;
        MergeListsAppend(source, before, init);
        assert MergeLists(t', [e]).Some? <==> MergeElement(t', e).Some?;
        ElementPanicsExactly(source, before + init, e);
      }
    }
  }

  lemma {:induction false} MapPanicsExactly(bs: seq<Value>, ov: Value)
    requires bs != [] && bs[0].Map? && Stacked(bs).Some? && ov.Map? && Base(bs) == bs
    ensures MergeValue(Stacked(bs).value, ov).Some? <==> Mergeable(bs, ov)
    decreases ov, 1
  {
    var w := Stacked(bs).value;
    MapStacked(bs, "name");
    ClashesExactly(bs, w, ov);
    forall k | k in ov.m
      ensures KeyStacked(bs, w, k)
      ensures k in w.m ==> (MergeValue(w.m[k], ov.m[k]).Some? <==> Mergeable(Under(bs, k), ov.m[k]))
    {
      MapStacked(bs, k);
      if k in w.m {
        PanicsAfterExactly(Under(bs, k), ov.m[k]);
      }
    }
  }

  /** After others have been merged. */
  lemma {:induction false} PanicsAfterExactly(us: seq<Value>, ov: Value)
    requires us != [] && Stacked(us).Some?
    ensures MergeValue(Stacked(us).value, ov).Some? <==> Mergeable(us, ov)
    decreases ov, 3
  {
    var bs := Base(us);
    BaseStacks(us);
    match bs[0]
    case Str(_) =>
    case Map(_) =>
      KindKept(bs);
      if ov.Map? {
        MapPanicsExactly(bs, ov);
      }
    case List(elems) =>
      ListStacked(bs);
      if ov.List? {
        ListPanicsExactly(elems, Elements(bs), ov.elems);
      }
    case _ => KindKept(bs);
  }

  /** For any source and any overlay: the merge panics if and only if something in the two as they were stands in its way. */
  lemma PanicsExactly(v: Value, ov: Value)
    ensures MergeValue(v, ov).None? <==> !Mergeable([v], ov)
  {
    PanicsAfterExactly([v], ov);
  }

  /** And the loops never panic, in whatever order they walk the maps, if and only if nothing does and nothing is hidden. */
  lemma NeverPanicsExactly(v: Value, ov: Value)
    ensures (forall r :: Yields(v, ov, r) ==> r.Some?) <==> Mergeable([v], ov) && !Hidden(v, ov)
  {
    PanicsExactly(v, ov);
    OutcomesExactly(v, ov, None);
    OutcomesExactly(v, ov, MergeValue(v, ov));
    forall r | Yields(v, ov, r) ensures r == MergeValue(v, ov) || r.None? {
      OutcomesExactly(v, ov, r);
    }
  }

  // ---------------------------------------------------------------------------
  // Fitting overlays
  // ---------------------------------------------------------------------------

  /** No map the overlay leaves alone for its name has a null under a key of the overlay. */
  ghost predicate Tame(v: Value, ov: Value)
    decreases ov, 0
  {
    && (v.Map? && ov.Map? ==>
          if NameClash(v, ov) then !SharedNull(v, ov) else forall k :: k in v.m && k in ov.m ==> Tame(v.m[k], ov.m[k]))
    && (v.List? && ov.List? ==> forall e :: e in ov.elems ==> TameSome(v.elems, e))
  }

  ghost predicate TameSome(elems: seq<Value>, e: Value)
    decreases e, 1
  {
    e.Map? && Locate(elems, NameOf(e), 0).At? ==> Tame(elems[Locate(elems, NameOf(e), 0).i], e)
  }

  lemma HiddenApart(source: seq<Value>, next: seq<Value>, i: nat, e: Value)
    requires SameNames(source, next) && i < |source| && (forall k :: 0 <= k < |source| && k != i ==> next[k] == source[k])
    requires e.Map? && Locate(source, NameOf(e), 0) != At(i)
    ensures HiddenElement(next, e) <==> HiddenElement(source, e)
  {
    LocateSame(source, next, NameOf(e), 0);
  }

  /** Merging one element hides and uncovers nothing in the others. */
  lemma {:induction false} HiddenListExactly(source: seq<Value>, overlay: seq<Value>)
    requires (forall e :: e in source ==> e.Map?) && NamedApart(overlay)
    requires forall e :: e in overlay ==> MatchMerges(source, e)
    ensures HiddenLists(source, overlay) <==> exists e :: e in overlay && HiddenElement(source, e)
    decreases |overlay|
  {
    if overlay != [] {
      var o := overlay[0];
      assert o in overlay && MatchMerges(source, o) && overlay == [o] + overlay[1..];
      var i := Locate(source, NameOf(o), 0).i;
      var next := MergeElement(source, o).value;
      MergeKeepsName(source[i], o);
      assert SameNames(source, next);
      RestMerges(source, overlay, next, i);
      HiddenListExactly(next, overlay[1..]);
      forall e | e in overlay[1..] ensures HiddenElement(next, e) <==> HiddenElement(source, e) {
        var j :| 0 < j < |overlay| && overlay[j] == e;
        assert NameOf(overlay[0]) != NameOf(overlay[j]) && e in overlay && MatchMerges(source, e);
        HiddenApart(source, next, i, e);
      }
      assert forall e :: e in overlay <==> e == o || e in overlay[1..];
      assert HiddenLists(source, overlay) <==> HiddenElement(source, o) || HiddenLists(next, overlay[1..]);
    }
  }

  lemma {:induction false} HiddenExactly(v: Value, ov: Value)
    requires Fits(v, ov)
    ensures Hidden(v, ov) <==> !Tame(v, ov)
    decreases ov
  {
    match v
    case Str(_) =>
    case Map(m) =>
      if !NameClash(v, ov) {
        forall k | k in m && k in ov.m ensures Hidden(m[k], ov.m[k]) <==> !Tame(m[k], ov.m[k]) {
          HiddenExactly(m[k], ov.m[k]);
        }
      }
    case List(elems) =>
      forall e | e in ov.elems ensures MatchMerges(elems, e) && (HiddenElement(elems, e) <==> !TameSome(elems, e)) {
        assert FitsSome(elems, e);
        var s := elems[Locate(elems, NameOf(e), 0).i];
        NoPanic(s, e);
        HiddenExactly(s, e);
      }
      HiddenListExactly(elems, ov.elems);
  }

  /** For a fitting overlay the loops give the merge, without panic and in whatever order they walk the maps, if and only if
      no map left alone for its name has a null under a shared key; nulls the overlay does not reach do not matter. */
  lemma FitsInEveryOrderExactly(v: Value, ov: Value)
    requires Fits(v, ov)
    ensures MergeValue(v, ov).Some?
    ensures (forall r :: Yields(v, ov, r) ==> r == MergeValue(v, ov)) <==> Tame(v, ov)
  {
    NoPanic(v, ov);
    HiddenExactly(v, ov);
    OutcomesExactly(v, ov, None);
    forall r | Yields(v, ov, r) ensures r == MergeValue(v, ov) || r.None? {
      OutcomesExactly(v, ov, r);
    }
  }
}
