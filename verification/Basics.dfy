/** Vocabulary shared by every module: optional values, namespaced names, clock readings and orders of walking a set. */
module Basics {

  datatype Option<+T> = None | Some(value: T)

  /** types.NamespacedName */
  datatype Name = Name(namespace: string, name: string)

  /** Clock readings and durations are integers counting nanoseconds, readings from the Unix epoch. */
  const SECOND: int := 1_000_000_000

  /** The zero time.Time: midnight of January 1st of the year 1. */
  const ZERO_TIME: int := -62_135_596_800_000_000_000

  /** Each element of the set once, in some order. */
  ghost predicate Each(s: seq<string>, all: set<string>) {
    (forall x :: x in s <==> x in all) && forall i, j :: 0 <= i < j < |s| ==> s[i] != s[j]
  }

  lemma EachOfBoth(s: seq<string>, t: seq<string>, all: set<string>, others: set<string>)
    requires Each(s, all) && Each(t, others) && all !! others
    ensures Each(s + t, all + others)
  {
    forall i, j | 0 <= i < j < |s + t| ensures (s + t)[i] != (s + t)[j] {
      if i < |s| <= j {
        assert s[i] in s && t[j - |s|] in t;
      }
    }
  }

  /** The elements of a set in some order. */
  ghost function InSomeOrder(all: set<string>): (s: seq<string>)
    ensures Each(s, all)
  {
    if all == {} then
      []
    else
      var x :| x in all;
      InSomeOrder(all - {x}) + [x]
  }
}
