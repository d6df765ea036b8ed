/** predictorDeletionHeap: predictors awaiting removal, in a binary heap ordered by deletion time,
    with the sift operations of container/heap written out. */
module DeletionHeap {
  import opened Basics

  /** An api.Predictor as the cache handles it: only its deletion timestamp is ever changed in place. */
  class Predictor {
    const name: Name
    const resourceVersion: string
    const spec: string
    var deletionTimestamp: Option<int>

    constructor (name: Name, resourceVersion: string, spec: string, deletionTimestamp: Option<int>)
      ensures this.name == name && this.resourceVersion == resourceVersion && this.spec == spec
      ensures this.deletionTimestamp == deletionTimestamp
    {
      this.name, this.resourceVersion, this.spec := name, resourceVersion, spec;
      this.deletionTimestamp := deletionTimestamp;
    }
  }

  /** Deletion time of a stamped predictor. */
  function Stamp(p: Predictor): int
    reads p
  {
    if p.deletionTimestamp.Some? then p.deletionTimestamp.value else ZERO_TIME
  }

  ghost predicate AllStamped(items: seq<Predictor>)
    reads items
  {
    forall i :: 0 <= i < |items| ==> items[i].deletionTimestamp.Some?
  }

  function Parent(k: int): int {
    (k - 1) / 2
  }

  /** The deletion times of a list of predictors, position by position. */
  ghost function Stamps(items: seq<Predictor>): (ts: seq<int>)
    reads items
    ensures |ts| == |items|
    ensures forall i :: 0 <= i < |items| ==> ts[i] == Stamp(items[i])
  {
    seq(|items|, i requires 0 <= i < |items| reads items => Stamp(items[i]))
  }

  function Swapped<T>(s: seq<T>, i: int, j: int): (r: seq<T>)
    requires 0 <= i < |s| && 0 <= j < |s|
    ensures |r| == |s|
    ensures forall k :: 0 <= k < |s| ==> r[k] == s[if k == i then j else if k == j then i else k]
  {
    s[i := s[j]][j := s[i]]
  }

  lemma SwapIsPermutation<T>(s: seq<T>, i: int, j: int)
    requires 0 <= i < |s| && 0 <= j < |s|
    ensures multiset(Swapped(s, i, j)) == multiset(s)
  {
  }

  /** No element is dated before its parent. */
  ghost predicate Ordered(ts: seq<int>) {
    forall k :: 0 < k < |ts| ==> ts[Parent(k)] <= ts[k]
  }

  /** Heap order, except possibly between j and its parent. */
  ghost predicate OrderedButUp(ts: seq<int>, j: int) {
    && (forall k :: 0 < k < |ts| && k != j ==> ts[Parent(k)] <= ts[k])
    && (forall k :: 0 < k < |ts| && Parent(k) == j && 0 < j ==> ts[Parent(j)] <= ts[k])
  }

  /** Heap order of the first n elements, except possibly between i and its children. */
  ghost predicate OrderedButDown(ts: seq<int>, n: int, i: int)
    requires n <= |ts|
  {
    && (forall k :: 0 < k < n && Parent(k) != i ==> ts[Parent(k)] <= ts[k])
    && (forall k :: 0 < k < n && Parent(k) == i && 0 < i ==> ts[Parent(i)] <= ts[k])
  }

  lemma UpStep(ts: seq<int>, j: int)
    requires 0 < j < |ts| && OrderedButUp(ts, j) && ts[j] < ts[Parent(j)]
    ensures OrderedButUp(Swapped(ts, Parent(j), j), Parent(j))
  {
    var i := Parent(j);
    var r := Swapped(ts, i, j);
    forall k | 0 < k < |r| && k != i ensures r[Parent(k)] <= r[k] {
      assert k != j ==> ts[Parent(k)] <= ts[k];
    }
    forall k | 0 < k < |r| && Parent(k) == i && 0 < i ensures r[Parent(i)] <= r[k] {
      assert ts[Parent(i)] <= ts[i];
      assert k != j ==> ts[i] <= ts[k];
    }
  }

  lemma DownStep(ts: seq<int>, n: int, i: int, j: int)
    requires 0 <= i < j < n <= |ts| && Parent(j) == i && OrderedButDown(ts, n, i) && ts[j] < ts[i]
    requires ChildrenFrom(ts, n, i, ts[j])
    ensures OrderedButDown(Swapped(ts, i, j), n, j)
  {
    var r := Swapped(ts, i, j);
    forall k | 0 < k < n && Parent(k) != j ensures r[Parent(k)] <= r[k] {
      if k == i {
        assert ts[Parent(i)] <= ts[j];
      } else if Parent(k) != i {
        assert ts[Parent(k)] <= ts[k];
      }
    }
    forall k | 0 < k < n && Parent(k) == j ensures r[Parent(j)] <= r[k] {
      assert ts[j] <= ts[k];
    }
  }

  /** No child of i among the first n elements is dated before t. */
  ghost predicate ChildrenFrom(ts: seq<int>, n: int, i: int, t: int)
    requires n <= |ts|
  {
    forall k :: 0 < k < n && Parent(k) == i ==> t <= ts[k]
  }

  /** The child heap.down compares with is the earlier one. */
  lemma EarlierChild(ts: seq<int>, n: int, i: int, j: int)
    requires 0 <= i && 2 * i + 1 < n <= |ts|
    requires j == if 2 * i + 2 < n && ts[2 * i + 2] < ts[2 * i + 1] then 2 * i + 2 else 2 * i + 1
    ensures Parent(j) == i && ChildrenFrom(ts, n, i, ts[j])
  {
    forall k | 0 < k < n && Parent(k) == i ensures ts[j] <= ts[k] {
      assert k == 2 * i + 1 || k == 2 * i + 2;
    }
  }

  lemma DownEnds(ts: seq<int>, n: int, i: int)
    requires 0 <= i && 0 <= n <= |ts| && OrderedButDown(ts, n, i)
    requires i < n ==> ChildrenFrom(ts, n, i, ts[i])
    ensures Ordered(ts[..n])
  {
    forall k | 0 < k < n ensures ts[Parent(k)] <= ts[k] {
    }
  }

  /** The root carries the earliest date. */
  lemma {:induction false} RootIsEarliest(ts: seq<int>, k: int)
    requires 0 <= k < |ts| && Ordered(ts)
    ensures ts[0] <= ts[k]
    decreases k
  {
    if k > 0 {
      RootIsEarliest(ts, Parent(k));
    }
  }

  /** After swapping root and last, only the root of the shortened heap can be out of place. */
  lemma SwapFrontBack(ts: seq<int>)
    requires ts != [] && Ordered(ts)
    ensures OrderedButDown(Swapped(ts, 0, |ts| - 1), |ts| - 1, 0)
  {
  }

  lemma DropLast(items: seq<Predictor>)
    requires items != [] && AllStamped(items) && Ordered(Stamps(items)[..|items| - 1])
    ensures AllStamped(items[..|items| - 1]) && Ordered(Stamps(items[..|items| - 1]))
    ensures multiset(items[..|items| - 1]) == multiset(items) - multiset{items[|items| - 1]}
  {
    var n := |items| - 1;
    assert items == items[..n] + [items[n]];
    assert Stamps(items[..n]) == Stamps(items)[..n];
  }

  class Heap {
    var items: seq<Predictor>

    ghost predicate Valid()
      reads this, items
    {
      AllStamped(items) && Ordered(Stamps(items))
    }

    constructor ()
      ensures items == [] && Valid()
    {
      items := [];
    }

    predicate Less(i: int, j: int)
      requires 0 <= i < |items| && 0 <= j < |items|
      reads this, items
    {
      Stamp(items[i]) < Stamp(items[j])
    }

    method Swap(i: int, j: int)
      requires 0 <= i < |items| && 0 <= j < |items|
      modifies this
      ensures items == Swapped(old(items), i, j)
      ensures Stamps(items) == Swapped(old(Stamps(items)), i, j)
      ensures multiset(items) == multiset(old(items))
    {
      SwapIsPermutation(items, i, j);
      items := items[i := items[j]][j := items[i]];
    }

    /** heap.up */
    method Up(j0: int)
      requires -1 <= j0 < |items|
      requires OrderedButUp(Stamps(items), j0)
      modifies this
      ensures |items| == |old(items)| && multiset(items) == multiset(old(items))
      ensures Ordered(Stamps(items))
    {
      var j := j0;
      while j > 0 && Less(j, Parent(j))
        invariant -1 <= j < |items| == |old(items)|
        invariant multiset(items) == multiset(old(items))
        invariant OrderedButUp(Stamps(items), j)
        decreases j
      {
        UpStep(Stamps(items), j);
        Swap(Parent(j), j);
        j := Parent(j);
      }
    }

    /** One iteration of heap.down: where the element at i moved to, or i itself if it stays. */
    method DownOnce(i: int, n: int) returns (j: int)
      requires 0 <= i && 0 <= n <= |items|
      requires OrderedButDown(Stamps(items), n, i)
      modifies this
      ensures multiset(items) == multiset(old(items))
      ensures |items| == |old(items)| && forall k :: n <= k < |items| ==> items[k] == old(items)[k]
      ensures i <= j && OrderedButDown(Stamps(items), n, j)
      ensures i < j ==> j < n
      ensures i == j < n ==> ChildrenFrom(Stamps(items), n, i, Stamps(items)[i])
    {
      j := 2 * i + 1;
      if j >= n {
        return i;
      }
      if j + 1 < n && Less(j + 1, j) {
        j := j + 1;
      }
      EarlierChild(Stamps(items), n, i, j);
      if !Less(j, i) {
        return i;
      }
      DownStep(Stamps(items), n, i, j);
      Swap(i, j);
    }

    /** heap.down */
    method Down(i0: int, n: int)
      requires 0 <= i0 && 0 <= n <= |items|
      requires OrderedButDown(Stamps(items), n, i0)
      modifies this
      ensures multiset(items) == multiset(old(items))
      ensures |items| == |old(items)| && forall k :: n <= k < |items| ==> items[k] == old(items)[k]
      ensures Ordered(Stamps(items)[..n])
    {
      var i := i0;
      var j := DownOnce(i, n);
      while i != j
        invariant 0 <= i <= j && (i < j ==> j < n)
        invariant |items| == |old(items)| && forall k :: n <= k < |items| ==> items[k] == old(items)[k]
        invariant multiset(items) == multiset(old(items))
        invariant OrderedButDown(Stamps(items), n, j)
        invariant i == j < n ==> ChildrenFrom(Stamps(items), n, j, Stamps(items)[j])
        decreases n - i
      {
        i := j;
        j := DownOnce(i, n);
      }
      DownEnds(Stamps(items), n, j);
    }

    /** heap.Push with the receiver's Push, which drops a predictor without a deletion time. */
    method Push(p: Predictor)
      requires Valid()
      modifies this
      ensures Valid()
      ensures multiset(items) == multiset(old(items)) + (if p.deletionTimestamp.Some? then multiset{p} else multiset{})
      ensures forall q :: q in items <==> q in old(items) || (q == p && p.deletionTimestamp.Some?)
    {
      if p.deletionTimestamp.Some? {
        items := items + [p];
      }
      ghost var before := items;
      Up(|items| - 1);
      SameStamps(before, items);
      SameMembers(before, items);
    }

    /** The receiver's Pop: drops the last element. */
    method PopLast() returns (p: Predictor)
      requires items != [] && AllStamped(items) && Ordered(Stamps(items)[..|items| - 1])
      modifies this
      ensures Valid()
      ensures p == old(items)[|old(items)| - 1]
      ensures multiset(items) == multiset(old(items)) - multiset{p}
    {
      var n := |items| - 1;
      p := items[n];
      DropLast(items);
      items := items[..n];
    }

    /** heap.Pop: moves the root to the end, sifts its replacement down and drops the end. */
    method Pop() returns (p: Predictor)
      requires Valid() && items != []
      modifies this
      ensures Valid()
      ensures p == old(items)[0]
      ensures multiset(items) == multiset(old(items)) - multiset{p}
    {
      var n := |items| - 1;
      SwapFrontBack(Stamps(items));
      Swap(0, n);
      ghost var swapped := items;
      assert AllStamped(swapped);
      Down(0, n);
      assert AllStamped(items) by {
        assert AllStamped(swapped);
        SameStamps(swapped, items);
      }
      p := PopLast();
    }

    method PopExpired(cutoff: int) returns (p: Predictor?)
      requires Valid()
      modifies this
      ensures Valid()
      ensures p == null ==> items == old(items) && forall q :: q in items ==> cutoff <= Stamp(q)
      ensures p != null ==>
                && p in old(items) && Stamp(p) < cutoff
                && (forall q :: q in old(items) ==> Stamp(p) <= Stamp(q))
                && multiset(old(items)) == multiset(items) + multiset{p}
                && |items| < |old(items)|
    {
      forall k | 0 <= k < |items| ensures Stamp(items[0]) <= Stamp(items[k]) {
        RootIsEarliest(Stamps(items), k);
      }
      if |items| != 0 && Stamp(items[0]) < cutoff {
        p := Pop();
        assert |multiset(items)| == |items| && |multiset(old(items))| == |old(items)|;
      } else {
        p := null;
      }
    }
  }

  lemma SameMembers<T>(a: seq<T>, b: seq<T>)
    requires multiset(a) == multiset(b)
    ensures forall x :: x in a <==> x in b
  {
    assert forall x :: x in a <==> x in multiset(a);
    assert forall x :: x in b <==> x in multiset(b);
  }

  lemma SameStamps(a: seq<Predictor>, b: seq<Predictor>)
    requires multiset(a) == multiset(b) && AllStamped(a)
    ensures AllStamped(b)
  {
    forall i | 0 <= i < |b| ensures b[i].deletionTimestamp.Some? {
      assert b[i] in multiset(a);
    }
  }
}
