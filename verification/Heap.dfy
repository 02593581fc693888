/** A binary min-heap in a growing slice. */
module Heaps {
  import opened Types

  /** less compares like numbers do: not both ways, and not being less carries over. Equivalent items may differ. */
  ghost predicate IsOrder<T(!new)>(less: (T, T) -> bool) {
    && (forall a, b :: less(a, b) ==> !less(b, a))
    && (forall a, b, c :: AtMost(less, a, b) && AtMost(less, b, c) ==> AtMost(less, a, c))
  }

  predicate AtMost<T>(less: (T, T) -> bool, a: T, b: T) {
    !less(b, a)
  }

  function Parent(i: nat): nat
    requires i > 0
  {
    (i - 1) / 2
  }

  ghost predicate InOrder<T>(data: seq<T>, less: (T, T) -> bool, i: nat)
    requires 0 < i < |data|
  {
    AtMost(less, data[Parent(i)], data[i])
  }

  ghost predicate HeapHolds<T>(data: seq<T>, less: (T, T) -> bool) {
    forall i :: 0 < i < |data| ==> InOrder(data, less, i)
  }

  /** Only the element at idx may be smaller than its parent; its children are no smaller than its parent. */
  ghost predicate UpTo<T>(data: seq<T>, less: (T, T) -> bool, idx: nat)
    requires idx < |data|
  {
    && (forall i :: 0 < i < |data| && i != idx ==> InOrder(data, less, i))
    && (forall i :: 0 < i < |data| && idx > 0 && Parent(i) == idx ==> AtMost(less, data[Parent(idx)], data[i]))
  }

  /** Only the children of idx may be smaller than their parent; they are no smaller than the parent of idx. */
  ghost predicate DownFrom<T>(data: seq<T>, less: (T, T) -> bool, idx: nat)
    requires idx < |data|
  {
    && (forall i :: 0 < i < |data| && Parent(i) != idx ==> InOrder(data, less, i))
    && (forall i :: 0 < i < |data| && idx > 0 && Parent(i) == idx ==> AtMost(less, data[Parent(idx)], data[i]))
  }

  function Swapped<T>(data: seq<T>, i: nat, j: nat): (r: seq<T>)
    requires i < |data| && j < |data|
    ensures |r| == |data|
  {
    data[i := data[j]][j := data[i]]
  }

  lemma SwapKeeps<T>(data: seq<T>, i: nat, j: nat)
    requires i < |data| && j < |data|
    ensures multiset(Swapped(data, i, j)) == multiset(data)
  {
  }

  /** The root is a minimum. */
  lemma {:induction false} RootIsLeast<T(!new)>(data: seq<T>, less: (T, T) -> bool, i: nat)
    requires IsOrder(less) && HeapHolds(data, less) && i < |data|
    ensures AtMost(less, data[0], data[i])
    decreases i
  {
    if i > 0 {
      RootIsLeast(data, less, Parent(i));
      assert InOrder(data, less, i);
    }
  }

  lemma SwapUp<T(!new)>(data: seq<T>, less: (T, T) -> bool, idx: nat)
    requires IsOrder(less) && 0 < idx < |data| && UpTo(data, less, idx) && less(data[idx], data[Parent(idx)])
    ensures UpTo(Swapped(data, idx, Parent(idx)), less, Parent(idx))
  {
    var p, d := Parent(idx), Swapped(data, idx, Parent(idx));
    forall i | 0 < i < |d| && i != p
      ensures InOrder(d, less, i)
      ensures p > 0 && Parent(i) == p ==> AtMost(less, d[Parent(p)], d[i])
    {
      if i != idx { assert InOrder(data, less, i); }
      if p > 0 { assert InOrder(data, less, p); }
    }
  }

  lemma SwapDown<T(!new)>(data: seq<T>, less: (T, T) -> bool, idx: nat, c: nat)
    requires IsOrder(less) && idx < c < |data| && Parent(c) == idx && DownFrom(data, less, idx)
    requires less(data[c], data[idx])
    requires forall i :: 0 < i < |data| && Parent(i) == idx ==> AtMost(less, data[c], data[i])
    ensures DownFrom(Swapped(data, idx, c), less, c)
  {
  }

  /** The smaller child. */
  function Candidate<T(!new)>(data: seq<T>, less: (T, T) -> bool, idx: nat): (c: nat)
    requires IsOrder(less) && idx < |data| / 2
    ensures idx < c < |data| && Parent(c) == idx
    ensures forall i :: 0 < i < |data| && Parent(i) == idx ==> AtMost(less, data[c], data[i])
  {
    var left, right := 2 * idx + 1, 2 * idx + 2;
    assert forall i :: 0 < i < |data| && Parent(i) == idx ==> i == left || i == right;
    if right < |data| && less(data[right], data[left]) then right else left
  }

  lemma AppendUpTo<T(!new)>(data: seq<T>, less: (T, T) -> bool, item: T)
    requires IsOrder(less) && HeapHolds(data, less)
    ensures UpTo(data + [item], less, |data|)
  {
    forall i | 0 < i < |data|
      ensures InOrder(data + [item], less, i)
    {
      assert InOrder(data, less, i);
    }
  }

  class Heap<T(==, !new)> {
    var data: seq<T>
    const less: (T, T) -> bool

    ghost predicate Valid()
      reads this
    {
      IsOrder(less) && HeapHolds(data, less)
    }

    constructor (less: (T, T) -> bool)
      requires IsOrder(less)
      ensures Valid() && data == [] && this.less == less
    {
      this.less, data := less, [];
    }

    method Push(item: T)
      requires Valid()
      modifies this
      ensures Valid() && multiset(data) == multiset(old(data)) + multiset{item}
    {
      AppendUpTo(data, less, item);
      data := data + [item];
      SiftUp(|data| - 1);
    }

    method SiftUp(start: nat)
      requires IsOrder(less) && start < |data| && UpTo(data, less, start)
      modifies this
      ensures Valid() && multiset(data) == multiset(old(data))
    {
      var idx: nat := start;
      while idx > 0
        invariant idx < |data| && UpTo(data, less, idx) && multiset(data) == multiset(old(data))
      {
        var parent := Parent(idx);
        if !less(data[idx], data[parent]) {
          return;
        }
        SwapUp(data, less, idx);
        SwapKeeps(data, idx, parent);
        data := Swapped(data, idx, parent);
        idx := parent;
      }
    }

    method Peek() returns (item: Option<T>)
      requires Valid()
      ensures item.None? <==> data == []
      ensures item.Some? ==> item.value == data[0] && forall x :: x in data ==> AtMost(less, item.value, x)
    {
      if data == [] {
        return None;
      }
      forall x | x in data
        ensures AtMost(less, data[0], x)
      {
        var i :| 0 <= i < |data| && data[i] == x;
        RootIsLeast(data, less, i);
      }
      return Some(data[0]);
    }

    /** Takes out a minimum. */
    method Pop() returns (item: Option<T>)
      requires Valid()
      modifies this
      ensures Valid()
      ensures item.None? ==> old(data) == [] && data == []
      ensures item.Some? ==>
        old(data) != [] && item.value == old(data)[0] && multiset(data) == multiset(old(data)) - multiset{item.value}
      ensures item.Some? ==> |data| == |old(data)| - 1
      ensures item.Some? ==> forall x :: x in old(data) ==> AtMost(less, item.value, x)
    {
      item := Peek();
      if item.None? {
        return;
      }
      var n := |data| - 1;
      LastToRoot(data, less);
      data := data[0 := data[n]][..n];
      if n > 0 {
        SiftDown(0);
      }
    }

    method SiftDown(start: nat)
      requires IsOrder(less) && start < |data| && DownFrom(data, less, start)
      modifies this
      ensures Valid() && multiset(data) == multiset(old(data)) && |data| == |old(data)|
    {
      var idx: nat, n := start, |data|;
      while idx < n / 2
        invariant |data| == n && idx < n && DownFrom(data, less, idx) && multiset(data) == multiset(old(data))
      {
        var candidate := Candidate(data, less, idx);
        if !less(data[candidate], data[idx]) {
          Settled(data, less, idx, candidate);
          return;
        }
        SwapDown(data, less, idx, candidate);
        SwapKeeps(data, idx, candidate);
        data := Swapped(data, idx, candidate);
        idx := candidate;
      }
    }
  }

  lemma Settled<T(!new)>(data: seq<T>, less: (T, T) -> bool, idx: nat, c: nat)
    requires IsOrder(less) && idx < |data| && DownFrom(data, less, idx) && c < |data|
    requires AtMost(less, data[idx], data[c])
    requires forall i :: 0 < i < |data| && Parent(i) == idx ==> AtMost(less, data[c], data[i])
    ensures HeapHolds(data, less)
  {
  }

  lemma LastToRoot<T(!new)>(data: seq<T>, less: (T, T) -> bool)
    requires IsOrder(less) && data != [] && HeapHolds(data, less)
    ensures var d := data[0 := data[|data| - 1]][..|data| - 1];
            multiset(d) == multiset(data) - multiset{data[0]} && (d != [] ==> DownFrom(d, less, 0))
  {
    var n := |data| - 1;
    var d := data[0 := data[n]][..n];
    RootReplaced(data);
    forall i | 0 < i < |d| && Parent(i) != 0
      ensures InOrder(d, less, i)
    {
      assert InOrder(data, less, i);
    }
  }

  lemma RootReplaced<T>(data: seq<T>)
    requires data != []
    ensures multiset(data[0 := data[|data| - 1]][..|data| - 1]) == multiset(data) - multiset{data[0]}
  {
    var n := |data| - 1;
    var d := data[0 := data[n]][..n];
    if n > 0 {
      assert data == [data[0]] + data[1..n] + [data[n]];
      assert d == [data[n]] + data[1..n];
    } else {
      assert data == [data[0]];
    }
  }
}
