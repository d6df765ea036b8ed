/** Laying one manifest over another: maps are merged key by key, list elements matched by their "name". */
module Overlay {
  import opened Basics

  /** Decoded YAML. Scalar stands for numbers and booleans, which the merge does not handle. */
  datatype Value = Str(s: string) | Map(m: map<string, Value>) | List(elems: seq<Value>) | Scalar(text: string) | Null

  /** A missing name reads as null. */
  function NameOf(v: Value): Value
    requires v.Map?
  {
    if "name" in v.m then v.m["name"] else Null
  }

  /** Both have a name, the source's is a string and they differ: the overlay is for something else. */
  predicate NameClash(s: Value, o: Value)
    requires s.Map? && o.Map?
  {
    "name" in s.m && "name" in o.m && s.m["name"].Str? && s.m["name"] != o.m["name"]
  }

  // ---------------------------------------------------------------------------
  // The merge; None is a panic
  // ---------------------------------------------------------------------------

  datatype Search = At(i: nat) | Missing | Panics

  /** Comparing two maps or two lists panics. */
  predicate Incomparable(a: Value, b: Value) {
    (a.Map? && b.Map?) || (a.List? && b.List?)
  }

  /** The first element, from i on, with the name; every element looked at must be a map. */
  function Locate(source: seq<Value>, name: Value, i: nat): (r: Search)
    requires i <= |source|
    ensures r.At? ==> i <= r.i < |source| && source[r.i].Map? && "name" in source[r.i].m && source[r.i].m["name"] == name
    decreases |source| - i
  {
    if i == |source| then Missing
    else if !source[i].Map? then Panics
    else if "name" in source[i].m && Incomparable(source[i].m["name"], name) then Panics
    else if "name" in source[i].m && source[i].m["name"] == name then At(i)
    else Locate(source, name, i + 1)
  }

  function MergeValue(v: Value, ov: Value): Option<Value>
    decreases ov, 1
  {
    if v.Str? then Some(ov)
    else if v.Map? && ov.Map? then MergeMaps(v, ov)
    else if v.List? && ov.List? then
      var r := MergeLists(v.elems, ov.elems);
      if r.None? then None else Some(List(r.value))
    else None
  }

  function MergeMaps(s: Value, o: Value): Option<Value>
    requires s.Map? && o.Map?
    decreases o, 0
  {
    if NameClash(s, o) then Some(s)
    else if exists k :: k in s.m && k in o.m && MergeValue(s.m[k], o.m[k]).None? then None
    else
      Some(Map(map k | k in s.m.Keys + o.m.Keys ::
                 if k !in o.m then s.m[k] else if k !in s.m then o.m[k] else MergeValue(s.m[k], o.m[k]).value))
  }

  /** An element without a match is written to a nil map, which panics unless there is nothing to write. */
  function MergeElement(source: seq<Value>, o: Value): Option<seq<Value>>
    decreases o, 1
  {
    if !o.Map? then None
    else
      match Locate(source, NameOf(o), 0)
      case Panics => None
      case Missing => if o.m == map[] then Some(source) else None
      case At(i) =>
        var r := MergeMaps(source[i], o);
        if r.None? then None else Some(source[i := r.value])
  }

  function MergeLists(source: seq<Value>, overlay: seq<Value>): Option<seq<Value>>
    decreases overlay, 2
  {
    if overlay == [] then Some(source)
    else
      var first := MergeElement(source, overlay[0]);
      if first.None? then None else MergeLists(first.value, overlay[1..])
  }

  // ---------------------------------------------------------------------------
  // What the loops may do, depending on the order in which they walk the overlay's maps
  // ---------------------------------------------------------------------------

  /** A key at which the first loop of overlayMap ends early: asking a null for its type panics, and differing names abort. */
  predicate Stops(source: Value, overlay: Value, k: string)
    requires source.Map? && overlay.Map?
  {
    k in source.m && (source.m[k].Null? || (k == "name" && NameClash(source, overlay)))
  }

  /** The first loop of overlayMap when the overlay's keys come in this order: whether the overlay applies, None for a panic. */
  function AppliesIn(source: Value, overlay: Value, order: seq<string>): Option<bool>
    requires source.Map? && overlay.Map?
  {
    if order == [] then Some(true)
    else if !Stops(source, overlay, order[0]) then AppliesIn(source, overlay, order[1..])
    else if source.m[order[0]].Null? then None
    else Some(false)
  }

  /** Some orders of walking the maps lead to this outcome. */
  ghost predicate Yields(v: Value, ov: Value, r: Option<Value>)
    decreases ov, 2
  {
    if v.Str? then r == Some(ov)
    else if v.Map? && ov.Map? then YieldsMaps(v, ov, r)
    else if v.List? && ov.List? then
      if r.None? then YieldsLists(v.elems, ov.elems, None)
      else r.value.List? && YieldsLists(v.elems, ov.elems, Some(r.value.elems))
    else r.None?
  }

  ghost predicate YieldsMaps(s: Value, o: Value, r: Option<Value>)
    requires s.Map? && o.Map?
    decreases o, 1
  {
    exists order :: Each(order, o.m.Keys) &&
                    match AppliesIn(s, o, order)
                    case None => r.None?
                    case Some(applies) => if applies then YieldsMerge(s, o, r) else r == Some(s)
  }

  /** The second loop: it panics if the merge under some key does, whenever it gets there. */
  ghost predicate YieldsMerge(s: Value, o: Value, r: Option<Value>)
    requires s.Map? && o.Map?
    decreases o, 0
  {
    if r.None? then exists k :: k in s.m && k in o.m && Yields(s.m[k], o.m[k], None)
    else
      && r.value.Map? && r.value.m.Keys == s.m.Keys + o.m.Keys
      && forall k :: k in r.value.m ==>
                       if k !in o.m then r.value.m[k] == s.m[k]
                       else if k !in s.m then r.value.m[k] == o.m[k]
                       else Yields(s.m[k], o.m[k], Some(r.value.m[k]))
  }

  ghost predicate YieldsElement(source: seq<Value>, o: Value, r: Option<seq<Value>>)
    decreases o, 2
  {
    if !o.Map? then r.None?
    else
      match Locate(source, NameOf(o), 0)
      case Panics => r.None?
      case Missing => r == if o.m == map[] then Some(source) else None
      case At(i) =>
        if r.None? then YieldsMaps(source[i], o, None)
        else exists m :: YieldsMaps(source[i], o, Some(m)) && r.value == source[i := m]
  }

  ghost predicate YieldsLists(source: seq<Value>, overlay: seq<Value>, r: Option<seq<Value>>)
    decreases overlay, 3
  {
    if overlay == [] then r == Some(source)
    else
      exists first :: YieldsElement(source, overlay[0], first) &&
                      if first.None? then r.None? else YieldsLists(first.value, overlay[1..], r)
  }

  // ---------------------------------------------------------------------------
  // When the order shows
  // ---------------------------------------------------------------------------

  /** The source has a null under a key of the overlay. */
  ghost predicate SharedNull(s: Value, o: Value)
    requires s.Map? && o.Map?
  {
    exists k :: k in s.m && k in o.m && s.m[k].Null?
  }

  /** Where the order decides: the overlay of some map is for something else, and the source has a null under a key that
      both have. */
  ghost predicate Hidden(v: Value, ov: Value)
    decreases ov, 1
  {
    || (v.Map? && ov.Map? && HiddenMaps(v, ov))
    || (v.List? && ov.List? && HiddenLists(v.elems, ov.elems))
  }

  ghost predicate HiddenMaps(s: Value, o: Value)
    requires s.Map? && o.Map?
    decreases o, 0
  {
    if NameClash(s, o) then SharedNull(s, o)
    else exists k :: k in s.m && k in o.m && Hidden(s.m[k], o.m[k])
  }

  ghost predicate HiddenElement(source: seq<Value>, o: Value)
    decreases o, 1
  {
    o.Map? && Locate(source, NameOf(o), 0).At? && HiddenMaps(source[Locate(source, NameOf(o), 0).i], o)
  }

  ghost predicate HiddenLists(source: seq<Value>, overlay: seq<Value>)
    decreases overlay, 2
  {
    overlay != [] &&
    (|| HiddenElement(source, overlay[0])
     || (MergeElement(source, overlay[0]).Some? && HiddenLists(MergeElement(source, overlay[0]).value, overlay[1..])))
  }

  lemma {:induction false} AppliesPast(s: Value, o: Value, seen: seq<string>, rest: seq<string>)
    requires s.Map? && o.Map? && forall k :: k in seen ==> !Stops(s, o, k)
    ensures AppliesIn(s, o, seen + rest) == AppliesIn(s, o, rest)
  {
    if seen == [] {
      assert seen + rest == rest;
    } else {
      assert (seen + rest)[1..] == seen[1..] + rest;
      AppliesPast(s, o, seen[1..], rest);
    }
  }

  lemma {:induction false} AppliesMeans(s: Value, o: Value, order: seq<string>)
    requires s.Map? && o.Map?
    ensures var r := AppliesIn(s, o, order);
            && (r.Some? && r.value <==> forall k :: k in order ==> !Stops(s, o, k))
            && (r.Some? && !r.value ==> NameClash(s, o))
            && (r.None? ==> exists k :: k in order && k in s.m && s.m[k].Null?)
  {
    if order != [] {
      assert order == [order[0]] + order[1..];
      AppliesMeans(s, o, order[1..]);
    }
  }

  /** Any key may come first. */
  ghost function OrderFrom(keys: set<string>, k: string): (order: seq<string>)
    requires k in keys
    ensures Each(order, keys) && order[0] == k
  {
    [k] + InSomeOrder(keys - {k})
  }

  /** When the names differ: the source is left alone, or a null is asked for its type first. */
  lemma ClashOutcomes(s: Value, o: Value, r: Option<Value>)
    requires s.Map? && o.Map? && NameClash(s, o)
    ensures YieldsMaps(s, o, r) <==> r == Some(s) || (r.None? && HiddenMaps(s, o))
  {
    forall order | Each(order, o.m.Keys) ensures AppliesIn(s, o, order) != Some(true) {
      AppliesMeans(s, o, order);
      assert "name" in order && Stops(s, o, "name");
    }
    forall order | Each(order, o.m.Keys) && AppliesIn(s, o, order).None? ensures HiddenMaps(s, o) {
      AppliesMeans(s, o, order);
    }
    assert AppliesIn(s, o, OrderFrom(o.m.Keys, "name")) == Some(false);
    if HiddenMaps(s, o) {
      var k :| k in s.m && k in o.m && s.m[k].Null?;
      assert AppliesIn(s, o, OrderFrom(o.m.Keys, k)).None?;
    }
  }

  lemma NoClashApplies(s: Value, o: Value, order: seq<string>)
    requires s.Map? && o.Map? && !NameClash(s, o) && Each(order, o.m.Keys)
    ensures AppliesIn(s, o, order) == if SharedNull(s, o) then None else Some(true)
  {
    AppliesMeans(s, o, order);
    if SharedNull(s, o) {
      var k :| k in s.m && k in o.m && s.m[k].Null?;
      assert k in order && Stops(s, o, k);
    }
  }

  lemma NoClashOutcomes(s: Value, o: Value, r: Option<Value>)
    requires s.Map? && o.Map? && !NameClash(s, o)
    ensures YieldsMaps(s, o, r) <==> if SharedNull(s, o) then r.None? else YieldsMerge(s, o, r)
  {
    forall order | Each(order, o.m.Keys) ensures AppliesIn(s, o, order) == if SharedNull(s, o) then None else Some(true) {
      NoClashApplies(s, o, order);
    }
    assert Each(InSomeOrder(o.m.Keys), o.m.Keys);
  }

  /** The outcomes of the loops are that of the merge and, exactly where the order decides, a panic. */
  lemma {:induction false} OutcomesExactly(v: Value, ov: Value, r: Option<Value>)
    ensures Yields(v, ov, r) <==> r == MergeValue(v, ov) || (r.None? && Hidden(v, ov))
    decreases ov, 2
  {
    if v.Map? && ov.Map? {
      MapOutcomesExactly(v, ov, r);
    } else if v.List? && ov.List? {
      if r.None? {
        ListOutcomesExactly(v.elems, ov.elems, None);
      } else if r.value.List? {
        ListOutcomesExactly(v.elems, ov.elems, Some(r.value.elems));
      }
    }
  }

  lemma {:induction false} MapOutcomesExactly(s: Value, o: Value, r: Option<Value>)
    requires s.Map? && o.Map?
    ensures YieldsMaps(s, o, r) <==> r == MergeMaps(s, o) || (r.None? && HiddenMaps(s, o))
    decreases o, 1
  {
    if NameClash(s, o) {
      ClashOutcomes(s, o, r);
    } else {
      NoClashOutcomes(s, o, r);
      if SharedNull(s, o) {
        var k :| k in s.m && k in o.m && s.m[k].Null?;
        assert MergeValue(s.m[k], o.m[k]).None?;
      } else {
        KeyOutcomesExactly(s, o, r);
      }
    }
  }

  lemma {:induction false} KeyOutcomesExactly(s: Value, o: Value, r: Option<Value>)
    requires s.Map? && o.Map? && !NameClash(s, o)
    ensures YieldsMerge(s, o, r) <==> r == MergeMaps(s, o) || (r.None? && HiddenMaps(s, o))
    decreases o, 0
  {
    forall k | k in s.m && k in o.m
      ensures Yields(s.m[k], o.m[k], None) <==> MergeValue(s.m[k], o.m[k]).None? || Hidden(s.m[k], o.m[k])
    {
      OutcomesExactly(s.m[k], o.m[k], None);
    }
    if r.Some? && r.value.Map? && r.value.m.Keys == s.m.Keys + o.m.Keys {
      forall k | k in s.m && k in o.m
        ensures Yields(s.m[k], o.m[k], Some(r.value.m[k])) <==> MergeValue(s.m[k], o.m[k]) == Some(r.value.m[k])
      {
        OutcomesExactly(s.m[k], o.m[k], Some(r.value.m[k]));
      }
      if YieldsMerge(s, o, r) {
        assert forall k :: k in s.m && k in o.m ==> k in r.value.m && MergeValue(s.m[k], o.m[k]) == Some(r.value.m[k]);
        assert r.value.m == MergeMaps(s, o).value.m;
      }
    }
  }

  lemma {:induction false} ElementOutcomesExactly(source: seq<Value>, o: Value, r: Option<seq<Value>>)
    ensures YieldsElement(source, o, r) <==> r == MergeElement(source, o) || (r.None? && HiddenElement(source, o))
    decreases o, 2
  {
    if o.Map? && Locate(source, NameOf(o), 0).At? {
      var s := source[Locate(source, NameOf(o), 0).i];
      forall q ensures YieldsMaps(s, o, q) <==> q == MergeMaps(s, o) || (q.None? && HiddenMaps(s, o)) {
        MapOutcomesExactly(s, o, q);
      }
    }
  }

  lemma {:induction false} ListOutcomesExactly(source: seq<Value>, overlay: seq<Value>, r: Option<seq<Value>>)
    ensures YieldsLists(source, overlay, r) <==> r == MergeLists(source, overlay) || (r.None? && HiddenLists(source, overlay))
    decreases overlay, 3
  {
    if overlay != [] {
      var o := overlay[0];
      forall q ensures YieldsElement(source, o, q) <==> q == MergeElement(source, o) || (q.None? && HiddenElement(source, o)) {
        ElementOutcomesExactly(source, o, q);
      }
      if MergeElement(source, o).Some? {
        ListOutcomesExactly(MergeElement(source, o).value, overlay[1..], r);
      }
    }
  }

  ghost predicate OrderShows(v: Value, ov: Value) {
    exists r, r' :: r != r' && Yields(v, ov, r) && Yields(v, ov, r')
  }

  /** The order in which the loops walk the maps matters if and only if the merge goes through and something is hidden. */
  lemma OrderShowsExactly(v: Value, ov: Value)
    ensures OrderShows(v, ov) <==> MergeValue(v, ov).Some? && Hidden(v, ov)
  {
    forall r ensures Yields(v, ov, r) <==> r == MergeValue(v, ov) || (r.None? && Hidden(v, ov)) {
      OutcomesExactly(v, ov, r);
    }
    if MergeValue(v, ov).Some? && Hidden(v, ov) {
      var r: Option<Value>, r': Option<Value> := MergeValue(v, ov), None;
      assert r != r' && Yields(v, ov, r) && Yields(v, ov, r');
    }
  }

  /** A null under a shared key and differing names: with the name first the source is left alone, with the null first the
      loop panics. */
  lemma NullBehindName() returns (s: Value, o: Value)
    ensures s == Map(map["name" := Str("a"), "x" := Null]) && o == Map(map["name" := Str("b"), "x" := Str("y")])
    ensures Each(["name", "x"], o.m.Keys) && AppliesIn(s, o, ["name", "x"]) == Some(false)
    ensures Each(["x", "name"], o.m.Keys) && AppliesIn(s, o, ["x", "name"]) == None
    ensures Yields(s, o, Some(s)) && Yields(s, o, None)
  {
    s, o := Map(map["name" := Str("a"), "x" := Null]), Map(map["name" := Str("b"), "x" := Str("y")]);
    assert s.m["x"].Null? && NameClash(s, o);
    ClashOutcomes(s, o, Some(s));
    ClashOutcomes(s, o, None);
  }

  // ---------------------------------------------------------------------------
  // The loops
  // ---------------------------------------------------------------------------

  method FindElement(source: seq<Value>, name: Value) returns (r: Search)
    ensures r == Locate(source, name, 0)
  {
    for i := 0 to |source|
      invariant Locate(source, name, 0) == Locate(source, name, i)
    {
      if !source[i].Map? {
        return Panics;
      }
      if "name" in source[i].m {
        if Incomparable(source[i].m["name"], name) {
          return Panics;
        }
        if source[i].m["name"] == name {
          return At(i);
        }
      }
    }
    return Missing;
  }

  /** The loop has come past the keys in `order` and has those in `todo` ahead. */
  ghost predicate ComePast(s: Value, o: Value, todo: set<string>, order: seq<string>)
    requires s.Map? && o.Map?
  {
    todo <= o.m.Keys && Each(order, o.m.Keys - todo) && forall k :: k in order ==> !Stops(s, o, k)
  }

  lemma StoppedAt(s: Value, o: Value, todo: set<string>, order: seq<string>, k: string) returns (all: seq<string>)
    requires s.Map? && o.Map? && ComePast(s, o, todo, order) && k in todo && Stops(s, o, k)
    ensures Each(all, o.m.Keys) && AppliesIn(s, o, all) == if s.m[k].Null? then None else Some(false)
  {
    var rest := OrderFrom(todo, k);
    EachOfBoth(order, rest, o.m.Keys - todo, todo);
    assert o.m.Keys - todo + todo == o.m.Keys;
    AppliesPast(s, o, order, rest);
    all := order + rest;
  }

  lemma OneMorePast(s: Value, o: Value, todo: set<string>, order: seq<string>, k: string)
    requires s.Map? && o.Map? && ComePast(s, o, todo, order) && k in todo && !Stops(s, o, k)
    ensures ComePast(s, o, todo - {k}, order + [k])
  {
    EachOfBoth(order, [k], o.m.Keys - todo, {k});
    assert o.m.Keys - todo + {k} == o.m.Keys - (todo - {k});
  }

  /** The first loop of overlayMap, with the order in which it took the keys. */
  method Applies(source: Value, overlay: Value) returns (r: Option<bool>, ghost order: seq<string>)
    requires source.Map? && overlay.Map?
    ensures Each(order, overlay.m.Keys) && r == AppliesIn(source, overlay, order)
    ensures r.None? ==> SharedNull(source, overlay)
  {
    var todo := overlay.m.Keys;
    order := [];
    while todo != {}
      invariant ComePast(source, overlay, todo, order)
      decreases todo
    {
      var k :| k in todo;
      if k in source.m {
        if source.m[k].Null? {
          order := StoppedAt(source, overlay, todo, order, k);
          return None, order;
        }
        if source.m[k].Str? && k == "name" && source.m[k] != overlay.m[k] {
          order := StoppedAt(source, overlay, todo, order, k);
          return Some(false), order;
        }
      }
      OneMorePast(source, overlay, todo, order, k);
      order := order + [k];
      todo := todo - {k};
    }
    AppliesMeans(source, overlay, order);
    return Some(true), order;
  }

  /** One step of the second loop of overlayMap. */
  method OverlayValue(v: Value, ov: Value) returns (r: Option<Value>)
    ensures Yields(v, ov, r)
    decreases ov, 2
  {
    match v {
      case List(elems) =>
        if !ov.List? {
          return None;
        }
        var e := OverlaySlice(elems, ov.elems);
        return if e.None? then None else Some(List(e.value));
      case Map(_) =>
        if !ov.Map? {
          return None;
        }
        r := OverlayMap(v, ov);
      case Str(_) => return Some(ov);
      case _ => return None;
    }
  }

  /** The map being filled in: keys in `todo` are still as in the source. */
  ghost predicate Filled(source: Value, overlay: Value, todo: set<string>, t: map<string, Value>)
    requires source.Map? && overlay.Map?
  {
    && t.Keys == source.m.Keys + (overlay.m.Keys - todo)
    && (forall k :: k in t && (k !in overlay.m || k in todo) ==> k in source.m && t[k] == source.m[k])
    && forall k :: k in overlay.m && k !in todo ==>
                     if k in source.m then Yields(source.m[k], overlay.m[k], Some(t[k])) else t[k] == overlay.m[k]
  }

  /** overlayMap: in whatever order the overlay's keys come the outcome is that of the merge, except that a null hidden
      behind differing names can make it panic. */
  method OverlayMap(source: Value, overlay: Value) returns (r: Option<Value>)
    requires source.Map? && overlay.Map?
    ensures YieldsMaps(source, overlay, r)
    ensures r == MergeMaps(source, overlay) || (r.None? && HiddenMaps(source, overlay))
    decreases overlay, 1
  {
    ghost var order;
    var applies;
    applies, order := Applies(source, overlay);
    if applies.None? {
      MapOutcomesExactly(source, overlay, None);
      return None;
    }
    if !applies.value {
      MapOutcomesExactly(source, overlay, Some(source));
      return Some(source);
    }
    r := Fill(source, overlay);
    MapOutcomesExactly(source, overlay, r);
  }

  /** The second loop of overlayMap. */
  method Fill(source: Value, overlay: Value) returns (r: Option<Value>)
    requires source.Map? && overlay.Map?
    ensures YieldsMerge(source, overlay, r)
    decreases overlay, 0
  {
    var t := source.m;
    var todo := overlay.m.Keys;
    while todo != {}
      invariant todo <= overlay.m.Keys && Filled(source, overlay, todo, t)
      decreases todo
    {
      var k :| k in todo;
      if k !in t {
        t := t[k := overlay.m[k]];
      } else {
        var v := OverlayValue(t[k], overlay.m[k]);
        if v.None? {
          return None;
        }
        t := t[k := v.value];
      }
      todo := todo - {k};
    }
    return Some(Map(t));
  }

  /** overlaySlice */
  method OverlaySlice(source: seq<Value>, overlay: seq<Value>) returns (r: Option<seq<Value>>)
    ensures YieldsLists(source, overlay, r)
    ensures r == MergeLists(source, overlay) || (r.None? && HiddenLists(source, overlay))
    decreases overlay, 3
  {
    var t := source;
    for j := 0 to |overlay|
      invariant forall q :: YieldsLists(t, overlay[j..], q) ==> YieldsLists(source, overlay, q)
    {
      ghost var before := t;
      var o := overlay[j];
      assert overlay[j..][0] == o && overlay[j..][1..] == overlay[j + 1..];
      var next := OverlayElement(t, o);
      if next.None? {
        ListOutcomesExactly(source, overlay, None);
        return None;
      }
      t := next.value;
      assert forall q :: YieldsLists(t, overlay[j + 1..], q) ==> YieldsLists(before, overlay[j..], q);
    }
    assert overlay[|overlay|..] == [];
    ListOutcomesExactly(source, overlay, Some(t));
    return Some(t);
  }

  /** The body of overlaySlice's loop. */
  method OverlayElement(source: seq<Value>, o: Value) returns (r: Option<seq<Value>>)
    ensures YieldsElement(source, o, r)
    decreases o, 2
  {
    if !o.Map? {
      return None;
    }
    var at := FindElement(source, NameOf(o));
    if at.Panics? {
      return None;
    }
    if at.Missing? {
      return if o.m == map[] then Some(source) else None;
    }
    var m := OverlayMap(source[at.i], o);
    return if m.None? then None else Some(source[at.i := m.value]);
  }

  // ---------------------------------------------------------------------------
  // What a merge means
  // ---------------------------------------------------------------------------

  /** Maps, each with a string for a name, no two the same. */
  predicate NamedApart(elems: seq<Value>) {
    && (forall e :: e in elems ==> e.Map? && NameOf(e).Str?)
    && forall i, j :: 0 <= i < j < |elems| ==> NameOf(elems[i]) != NameOf(elems[j])
  }

  /** An overlay whose leaves are strings and whose list elements have distinct names. */
  predicate Leafy(v: Value) {
    match v
    case Str(_) => true
    case Map(m) => forall k :: k in m ==> Leafy(m[k])
    case List(elems) => NamedApart(elems) && forall e :: e in elems ==> Leafy(e)
    case _ => false
  }

  /** Kinds agree wherever both have something, and overlay list elements have a match. */
  predicate Fits(v: Value, ov: Value)
    decreases ov, 0
  {
    match v
    case Str(_) => ov.Str?
    case Map(m) => ov.Map? && (NameClash(v, ov) || forall k :: k in m && k in ov.m ==> Fits(m[k], ov.m[k]))
    case List(elems) =>
      && ov.List? && (forall e :: e in elems ==> e.Map?) && NamedApart(ov.elems)
      && forall e :: e in ov.elems ==> FitsSome(elems, e)
    case _ => false
  }

  predicate FitsSome(elems: seq<Value>, e: Value)
    decreases e, 1
  {
    && e.Map? && Locate(elems, NameOf(e), 0).At?
    && Fits(elems[Locate(elems, NameOf(e), 0).i], e)
  }

  /** Element j of the overlay is merged into element i of the source. */
  predicate Hits(source: seq<Value>, overlay: seq<Value>, i: int, j: int) {
    && 0 <= i < |source| && 0 <= j < |overlay| && source[i].Map? && overlay[j].Map?
    && Locate(source, NameOf(overlay[j]), 0) == At(i)
  }

  /** A list merged element by element. */
  ghost predicate ListMerged(source: seq<Value>, overlay: seq<Value>, r: seq<Value>) {
    && |r| == |source|
    && (forall i, j :: Hits(source, overlay, i, j) ==> MergeMaps(source[i], overlay[j]) == Some(r[i]))
    && forall i :: 0 <= i < |source| && (forall j :: !Hits(source, overlay, i, j)) ==> r[i] == source[i]
  }

  /** The same elements by name. */
  ghost predicate SameNames(a: seq<Value>, b: seq<Value>) {
    |a| == |b| && forall i :: 0 <= i < |a| ==> SameName(a[i], b[i])
  }

  predicate SameName(a: Value, b: Value) {
    a.Map? && b.Map? && ("name" in a.m <==> "name" in b.m) && NameOf(a) == NameOf(b)
  }

  lemma {:induction false} LocateSame(a: seq<Value>, b: seq<Value>, name: Value, i: nat)
    requires SameNames(a, b) && i <= |a|
    ensures Locate(a, name, i) == Locate(b, name, i)
    decreases |a| - i
  {
    if i < |a| {
      assert SameName(a[i], b[i]);
      LocateSame(a, b, name, i + 1);
    }
  }

  /** Among maps, a string name is found exactly when some element has it, and then at the first. */
  lemma {:induction false} LocateExactly(a: seq<Value>, name: Value, i: nat)
    requires i <= |a| && name.Str? && forall e :: e in a ==> e.Map?
    ensures var r := Locate(a, name, i);
            && !r.Panics?
            && (r.Missing? ==> forall k :: i <= k < |a| ==> NameOf(a[k]) != name)
            && (r.At? ==> forall k :: i <= k < r.i ==> NameOf(a[k]) != name)
    decreases |a| - i
  {
    if i < |a| {
      assert a[i] in a;
      LocateExactly(a, name, i + 1);
    }
  }

  lemma LocateOwn(a: seq<Value>, j: nat)
    requires NamedApart(a) && j < |a|
    ensures Locate(a, NameOf(a[j]), 0) == At(j)
  {
    assert a[j] in a;
    LocateExactly(a, NameOf(a[j]), 0);
  }

  /** A matching element keeps its name. */
  lemma MergeKeepsName(s: Value, o: Value)
    requires s.Map? && o.Map? && "name" in s.m && NameOf(s) == NameOf(o) && NameOf(o).Str?
    ensures var r := MergeMaps(s, o); r.Some? ==> r.value.Map? && SameName(s, r.value)
  {
  }

  /** If every match merges, the list does, element by element. */
  lemma {:induction false} ListMerges(source: seq<Value>, overlay: seq<Value>)
    requires (forall e :: e in source ==> e.Map?) && NamedApart(overlay)
    requires forall e :: e in overlay ==> MatchMerges(source, e)
    ensures MergeLists(source, overlay).Some? && ListMerged(source, overlay, MergeLists(source, overlay).value)
    ensures SameNames(source, MergeLists(source, overlay).value)
    decreases |overlay|
  {
    if overlay != [] {
      var o := overlay[0];
      assert o in overlay && MatchMerges(source, o);
      var i := Locate(source, NameOf(o), 0).i;
      var m := MergeMaps(source[i], o).value;
      MergeKeepsName(source[i], o);
      var next := source[i := m];
      assert SameNames(source, next);
      RestMerges(source, overlay, next, i);
      ListMerges(next, overlay[1..]);
      MergedFirst(source, overlay, next, i, MergeLists(next, overlay[1..]).value);
    }
  }

  predicate MatchMerges(source: seq<Value>, e: Value) {
    e.Map? && Locate(source, NameOf(e), 0).At? && MergeMaps(source[Locate(source, NameOf(e), 0).i], e).Some?
  }

  /** The first element merged is not the match of any other. */
  lemma RestMerges(source: seq<Value>, overlay: seq<Value>, next: seq<Value>, i: nat)
    requires NamedApart(overlay) && overlay != [] && SameNames(source, next)
    requires Hits(source, overlay, i, 0) && (forall k :: 0 <= k < |source| && k != i ==> next[k] == source[k])
    requires forall e :: e in overlay ==> MatchMerges(source, e)
    ensures forall e :: e in overlay[1..] ==> MatchMerges(next, e)
    ensures forall e :: e in next ==> e.Map?
    ensures NamedApart(overlay[1..])
  {
    forall e | e in overlay[1..] ensures MatchMerges(next, e) {
      var j :| 0 < j < |overlay| && overlay[j] == e;
      assert e in overlay && MatchMerges(source, e);
      LocateSame(source, next, NameOf(e), 0);
      assert NameOf(overlay[0]) != NameOf(overlay[j]);
    }
    forall e | e in next ensures e.Map? {
      var k :| 0 <= k < |next| && next[k] == e;
      assert SameName(source[k], next[k]);
    }
  }

  lemma MergedFirst(source: seq<Value>, overlay: seq<Value>, next: seq<Value>, i: nat, r: seq<Value>)
    requires NamedApart(overlay) && overlay != [] && SameNames(source, next) && SameNames(next, r)
    requires Hits(source, overlay, i, 0) && MergeMaps(source[i], overlay[0]) == Some(next[i])
    requires forall k :: 0 <= k < |source| && k != i ==> next[k] == source[k]
    requires ListMerged(next, overlay[1..], r)
    ensures ListMerged(source, overlay, r) && SameNames(source, r)
  {
    var rest := overlay[1..];
    forall k, j | 0 <= k < |source| && 0 < j < |overlay| ensures Hits(source, overlay, k, j) <==> Hits(next, rest, k, j - 1) {
      assert rest[j - 1] == overlay[j] && overlay[j] in overlay;
      LocateSame(source, next, NameOf(overlay[j]), 0);
      assert SameName(source[k], next[k]);
    }
    forall j | 0 < j < |overlay| ensures !Hits(source, overlay, i, j) {
      assert NameOf(overlay[0]) != NameOf(overlay[j]);
    }
    forall k, j | Hits(source, overlay, k, j) ensures MergeMaps(source[k], overlay[j]) == Some(r[k]) {
      if j == 0 {
        forall j' ensures !Hits(next, rest, i, j') {
          assert 0 <= j' < |rest| ==> !Hits(source, overlay, i, j' + 1);
        }
      } else {
        assert Hits(next, rest, k, j - 1);
      }
    }
    forall k | 0 <= k < |source| && (forall j :: !Hits(source, overlay, k, j)) ensures r[k] == source[k] {
      forall j' ensures !Hits(next, rest, k, j') {
        assert 0 <= j' < |rest| ==> !Hits(source, overlay, k, j' + 1);
      }
    }
    forall k | 0 <= k < |source| ensures SameName(source[k], r[k]) {
      assert SameName(source[k], next[k]) && SameName(next[k], r[k]);
    }
  }

  // ---------------------------------------------------------------------------
  // No panic
  // ---------------------------------------------------------------------------

  /** The merge of an overlay that fits does not panic. */
  lemma {:induction false} NoPanic(v: Value, ov: Value)
    requires Fits(v, ov)
    ensures MergeValue(v, ov).Some?
    decreases ov
  {
    match v
    case Str(_) =>
    case Map(m) =>
      if !NameClash(v, ov) {
        forall k | k in m && k in ov.m ensures MergeValue(m[k], ov.m[k]).Some? {
          NoPanic(m[k], ov.m[k]);
        }
      }
    case List(elems) =>
      forall e | e in ov.elems ensures MatchMerges(elems, e) {
        assert FitsSome(elems, e);
        NoPanic(elems[Locate(elems, NameOf(e), 0).i], e);
      }
      ListMerges(elems, ov.elems);
  }

  // ---------------------------------------------------------------------------
  // Merging again changes nothing
  // ---------------------------------------------------------------------------

  /** Stable under merging the same overlay. */
  predicate Settled(v: Value, ov: Value) {
    Fits(v, ov) && MergeValue(v, ov) == Some(v)
  }

  /** A list all of whose matches are settled is settled. */
  lemma SettledList(elems: seq<Value>, overlay: seq<Value>)
    requires (forall e :: e in elems ==> e.Map?) && NamedApart(overlay)
    requires forall j :: 0 <= j < |overlay| ==> SettledMatch(elems, overlay[j])
    ensures Settled(List(elems), List(overlay))
  {
    forall e | e in overlay ensures FitsSome(elems, e) && MatchMerges(elems, e) {
      var j :| 0 <= j < |overlay| && overlay[j] == e;
      assert SettledMatch(elems, overlay[j]);
    }
    ListMerges(elems, overlay);
    var r := MergeLists(elems, overlay).value;
    forall i | 0 <= i < |elems| ensures r[i] == elems[i] {
      if j :| Hits(elems, overlay, i, j) {
        assert SettledMatch(elems, overlay[j]);
      }
    }
    assert r == elems;
  }

  predicate SettledMatch(elems: seq<Value>, e: Value) {
    e.Map? && Locate(elems, NameOf(e), 0).At? && Settled(elems[Locate(elems, NameOf(e), 0).i], e)
  }

  lemma {:induction false} SelfSettled(o: Value)
    requires Leafy(o)
    ensures Settled(o, o)
    decreases o
  {
    match o
    case Str(_) =>
    case Map(m) =>
      forall k | k in m ensures Settled(m[k], m[k]) {
        SelfSettled(m[k]);
      }
      assert MergeMaps(o, o).value.m == m;
    case List(elems) =>
      forall j | 0 <= j < |elems| ensures SettledMatch(elems, elems[j]) {
        assert elems[j] in elems;
        LocateOwn(elems, j);
        SelfSettled(elems[j]);
      }
      SettledList(elems, elems);
  }

  /** Merging an overlay twice is merging it once. */
  lemma {:induction false} MergeTwice(v: Value, ov: Value)
    requires Fits(v, ov) && Leafy(ov)
    ensures MergeValue(v, ov).Some? && Settled(MergeValue(v, ov).value, ov)
    decreases ov
  {
    NoPanic(v, ov);
    match v
    case Str(_) => SelfSettled(ov);
    case Map(m) =>
      if !NameClash(v, ov) {
        MergeMapTwice(v, ov);
      }
    case List(elems) => MergeListTwice(elems, ov.elems);
  }

  lemma {:induction false} MergeMapTwice(v: Value, ov: Value)
    requires v.Map? && ov.Map? && Fits(v, ov) && Leafy(ov) && !NameClash(v, ov) && MergeMaps(v, ov).Some?
    ensures Settled(MergeMaps(v, ov).value, ov)
    decreases ov, 0
  {
    var r := MergeMaps(v, ov).value;
    forall k | k in ov.m ensures k in r.m && Settled(r.m[k], ov.m[k]) {
      if k in v.m {
        MergeTwice(v.m[k], ov.m[k]);
      } else {
        SelfSettled(ov.m[k]);
      }
    }
    if !NameClash(r, ov) {
      assert MergeMaps(r, ov).value.m == r.m;
    }
  }

  lemma {:induction false} MergeListTwice(elems: seq<Value>, overlay: seq<Value>)
    requires Fits(List(elems), List(overlay)) && Leafy(List(overlay)) && MergeLists(elems, overlay).Some?
    ensures Settled(List(MergeLists(elems, overlay).value), List(overlay))
    decreases overlay
  {
    forall e | e in overlay ensures MatchMerges(elems, e) {
      assert FitsSome(elems, e);
      NoPanic(elems[Locate(elems, NameOf(e), 0).i], e);
    }
    ListMerges(elems, overlay);
    var r := MergeLists(elems, overlay).value;
    forall j | 0 <= j < |overlay| ensures SettledMatch(r, overlay[j]) {
      assert overlay[j] in overlay && FitsSome(elems, overlay[j]);
      LocateSame(elems, r, NameOf(overlay[j]), 0);
      var i := Locate(elems, NameOf(overlay[j]), 0).i;
      assert Hits(elems, overlay, i, j);
      MergeTwice(elems[i], overlay[j]);
    }
    forall e | e in r ensures e.Map? {
      var k :| 0 <= k < |r| && r[k] == e;
      assert SameName(elems[k], r[k]);
    }
    SettledList(r, overlay);
  }

  // ---------------------------------------------------------------------------
  // Path by path
  // ---------------------------------------------------------------------------

  /** The string at a path; list elements are reached by name. */
  function Leaf(v: Value, path: seq<string>): Option<string>
    decreases |path|
  {
    if path == [] then (if v.Str? then Some(v.s) else None)
    else
      match v
      case Map(m) => if path[0] in m then Leaf(m[path[0]], path[1..]) else None
      case List(elems) =>
        var at := Locate(elems, Str(path[0]), 0);
        if at.At? then Leaf(elems[at.i], path[1..]) else None
      case _ => None
  }

  /** Whatever is at a path: a subtree of any kind. */
  function Sub(v: Value, path: seq<string>): Option<Value>
    decreases |path|
  {
    if path == [] then Some(v)
    else
      match v
      case Map(m) => if path[0] in m then Sub(m[path[0]], path[1..]) else None
      case List(elems) =>
        var at := Locate(elems, Str(path[0]), 0);
        if at.At? then Sub(elems[at.i], path[1..]) else None
      case _ => None
  }

  /** At the path, `r` has what is there in the one that has something, and the merge of the two where both do. */
  ghost predicate MergedAt(v: Value, ov: Value, r: Value, path: seq<string>) {
    if Sub(ov, path).None? then Sub(r, path) == Sub(v, path)
    else if Sub(v, path).None? then Sub(r, path) == Sub(ov, path)
    else Sub(r, path).Some? && Sub(r, path) == MergeValue(Sub(v, path).value, Sub(ov, path).value)
  }

  /** No map along the way is named differently by the overlay. */
  ghost predicate NoClash(v: Value, ov: Value)
    decreases ov, 0
  {
    && (v.Map? && ov.Map? ==> !NameClash(v, ov) && forall k :: k in v.m && k in ov.m ==> NoClash(v.m[k], ov.m[k]))
    && (v.List? && ov.List? ==> forall e :: e in ov.elems ==> NoClashSome(v.elems, e))
  }

  ghost predicate NoClashSome(elems: seq<Value>, e: Value)
    decreases e, 1
  {
    e.Map? && Locate(elems, NameOf(e), 0).At? ==> NoClash(elems[Locate(elems, NameOf(e), 0).i], e)
  }

  /** At every path the merge has the subtree of the one that has one there, of whatever kind, and the merge of the two
      where both do; so it has the overlay's string if there is one and the source's otherwise. */
  lemma {:induction false} MergeMeans(v: Value, ov: Value, path: seq<string>)
    requires Fits(v, ov) && Leafy(ov) && NoClash(v, ov)
    ensures MergeValue(v, ov).Some?
    ensures MergedAt(v, ov, MergeValue(v, ov).value, path)
    ensures Leaf(MergeValue(v, ov).value, path) == if Leaf(ov, path).Some? then Leaf(ov, path) else Leaf(v, path)
    decreases |path|
  {
    NoPanic(v, ov);
    if path != [] {
      match v
      case Str(_) =>
      case Map(m) =>
        if path[0] in m && path[0] in ov.m {
          MergeMeans(m[path[0]], ov.m[path[0]], path[1..]);
        }
      case List(elems) => MergeListMeans(elems, ov.elems, path);
    }
  }

  lemma {:induction false} MergeListMeans(elems: seq<Value>, overlay: seq<Value>, path: seq<string>)
    requires Fits(List(elems), List(overlay)) && Leafy(List(overlay)) && NoClash(List(elems), List(overlay)) && path != []
    requires MergeLists(elems, overlay).Some?
    ensures MergedAt(List(elems), List(overlay), List(MergeLists(elems, overlay).value), path)
    ensures var r := MergeLists(elems, overlay).value;
            Leaf(List(r), path) == if Leaf(List(overlay), path).Some? then Leaf(List(overlay), path) else Leaf(List(elems), path)
    decreases |path|, 0
  {
    forall e | e in overlay ensures MatchMerges(elems, e) {
      assert FitsSome(elems, e);
      NoPanic(elems[Locate(elems, NameOf(e), 0).i], e);
    }
    ListMerges(elems, overlay);
    var r := MergeLists(elems, overlay).value;
    var name := Str(path[0]);
    LocateSame(elems, r, name, 0);
    LocateExactly(overlay, name, 0);
    var at := Locate(overlay, name, 0);
    if at.At? {
      var o := overlay[at.i];
      assert o in overlay && FitsSome(elems, o) && NameOf(o) == name && NoClashSome(elems, o);
      var i := Locate(elems, name, 0).i;
      assert Hits(elems, overlay, i, at.i);
      MergeMeans(elems[i], o, path[1..]);
    } else if Locate(elems, name, 0).At? {
      var i := Locate(elems, name, 0).i;
      forall j ensures !Hits(elems, overlay, i, j) {
        assert 0 <= j < |overlay| ==> NameOf(overlay[j]) != name;
      }
    }
  }

  /** What the overlay does not reach is left as it was, values of every kind and overlays for something else included. */
  lemma {:induction false} MergeLeavesRest(v: Value, ov: Value, path: seq<string>)
    requires Fits(v, ov) && Sub(ov, path).None?
    ensures MergeValue(v, ov).Some? && Sub(MergeValue(v, ov).value, path) == Sub(v, path)
    decreases |path|
  {
    NoPanic(v, ov);
    match v
    case Str(_) =>
    case Map(m) =>
      if path[0] in m && path[0] in ov.m && !NameClash(v, ov) {
        MergeLeavesRest(m[path[0]], ov.m[path[0]], path[1..]);
      }
    case List(elems) => MergeListLeavesRest(elems, ov.elems, path);
  }

  lemma {:induction false} MergeListLeavesRest(elems: seq<Value>, overlay: seq<Value>, path: seq<string>)
    requires Fits(List(elems), List(overlay)) && path != [] && Sub(List(overlay), path).None?
    requires MergeLists(elems, overlay).Some?
    ensures Sub(List(MergeLists(elems, overlay).value), path) == Sub(List(elems), path)
    decreases |path|, 0
  {
    forall e | e in overlay ensures MatchMerges(elems, e) {
      assert FitsSome(elems, e);
      NoPanic(elems[Locate(elems, NameOf(e), 0).i], e);
    }
    ListMerges(elems, overlay);
    var r := MergeLists(elems, overlay).value;
    var name := Str(path[0]);
    LocateSame(elems, r, name, 0);
    LocateExactly(overlay, name, 0);
    var at := Locate(overlay, name, 0);
    if at.At? {
      var o := overlay[at.i];
      assert o in overlay && FitsSome(elems, o) && NameOf(o) == name;
      var i := Locate(elems, name, 0).i;
      assert Hits(elems, overlay, i, at.i);
      MergeLeavesRest(elems[i], o, path[1..]);
    } else if Locate(elems, name, 0).At? {
      var i := Locate(elems, name, 0).i;
      forall j ensures !Hits(elems, overlay, i, j) {
        assert 0 <= j < |overlay| ==> NameOf(overlay[j]) != name;
      }
    }
  }
}
