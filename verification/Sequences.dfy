/** Sorted sequences, and what inserting or removing at a position does to a sequence. */
module Sequences {

  ghost predicate Sorted(s: seq<int>) {
    forall i, j :: 0 <= i < j < |s| ==> s[i] < s[j]
  }

  /** Sorted, with repetitions. */
  ghost predicate Ordered(s: seq<int>) {
    forall i, j :: 0 <= i < j < |s| ==> s[i] <= s[j]
  }

  lemma {:induction false} DistinctCount(s: seq<int>)
    requires Sorted(s)
    ensures |set k | k in s| == |s|
  {
    if s == [] {
      assert (set k | k in s) == {};
    } else {
      var front, last := s[..|s| - 1], s[|s| - 1];
      DistinctCount(front);
      assert s == front + [last];
      assert (set k | k in s) == (set k | k in front) + {last};
    }
  }

  function InsertAt<T>(s: seq<T>, i: nat, x: T): (r: seq<T>)
    requires i <= |s|
    ensures |r| == |s| + 1
  {
    s[..i] + [x] + s[i..]
  }

  function RemoveAt<T>(s: seq<T>, i: nat): (r: seq<T>)
    requires i < |s|
    ensures |r| == |s| - 1
  {
    s[..i] + s[i + 1..]
  }

  /** The first index whose element is at least k: what sort.Search finds on a sorted slice. */
  function FirstAtLeast(s: seq<int>, k: int): (i: nat)
    ensures i <= |s|
    ensures forall j :: 0 <= j < i ==> s[j] < k
    ensures i < |s| ==> k <= s[i]
  {
    if s == [] || k <= s[0] then 0 else 1 + FirstAtLeast(s[1..], k)
  }

  /** The first index whose element is above k. */
  function FirstAbove(s: seq<int>, k: int): (i: nat)
    ensures i <= |s|
    ensures forall j :: 0 <= j < i ==> s[j] <= k
    ensures i < |s| ==> k < s[i]
  {
    if s == [] || k < s[0] then 0 else 1 + FirstAbove(s[1..], k)
  }

  lemma InsertAtElement<T>(s: seq<T>, i: nat, x: T, j: nat)
    requires i <= |s| && j <= |s|
    ensures InsertAt(s, i, x)[j] == if j < i then s[j] else if j == i then x else s[j - 1]
  {
  }

  lemma RemoveAtElement<T>(s: seq<T>, i: nat, j: nat)
    requires i < |s| && j < |s| - 1
    ensures RemoveAt(s, i)[j] == s[if j < i then j else j + 1]
  {
  }

  lemma InsertAtMembers<T>(s: seq<T>, i: nat, x: T)
    requires i <= |s|
    ensures forall y :: y in InsertAt(s, i, x) <==> y == x || y in s
  {
    assert s == s[..i] + s[i..];
  }

  lemma InsertAtTake<T>(s: seq<T>, i: nat, x: T, m: nat)
    requires i <= m <= |s|
    ensures InsertAt(s, i, x)[..m + 1] == InsertAt(s[..m], i, x)
    ensures InsertAt(s, i, x)[m + 1..] == s[m..]
  {
  }

  lemma InsertAtDrop<T>(s: seq<T>, i: nat, x: T, m: nat)
    requires m <= i <= |s|
    ensures InsertAt(s, i, x)[..m] == s[..m]
    ensures InsertAt(s, i, x)[m..] == InsertAt(s[m..], i - m, x)
  {
  }

  lemma FirstAtLeastIs(s: seq<int>, k: int, i: nat)
    requires Ordered(s) && i <= |s| && (i > 0 ==> s[i - 1] < k) && (i < |s| ==> k <= s[i])
    ensures FirstAtLeast(s, k) == i
  {
  }

  lemma FirstAtLeastHit(s: seq<int>, i: nat)
    requires Sorted(s) && i < |s|
    ensures FirstAtLeast(s, s[i]) == i
  {
  }

  lemma FirstAtLeastFinds(s: seq<int>, k: int)
    requires Sorted(s) && k in s
    ensures FirstAtLeast(s, k) < |s| && s[FirstAtLeast(s, k)] == k
  {
    var i :| 0 <= i < |s| && s[i] == k;
    FirstAtLeastHit(s, i);
  }

  lemma FirstAtLeastTake(s: seq<int>, k: int, m: nat)
    requires Sorted(s) && m < |s| && k < s[m]
    ensures FirstAtLeast(s, k) <= m && FirstAtLeast(s[..m], k) == FirstAtLeast(s, k)
  {
    FirstAtLeastIs(s[..m], k, FirstAtLeast(s, k));
  }

  lemma FirstAtLeastDrop(s: seq<int>, k: int, m: nat)
    requires Sorted(s) && m < |s| && s[m] < k
    ensures m < FirstAtLeast(s, k) && FirstAtLeast(s[m + 1..], k) == FirstAtLeast(s, k) - m - 1
  {
    FirstAtLeastIs(s[m + 1..], k, FirstAtLeast(s, k) - m - 1);
  }

  lemma SortedInsert(s: seq<int>, k: int)
    requires Sorted(s) && k !in s
    ensures Sorted(InsertAt(s, FirstAtLeast(s, k), k))
  {
    var i := FirstAtLeast(s, k);
    assert i < |s| ==> s[i] in s;
  }

  lemma SortedRemove(s: seq<int>, i: nat)
    requires Sorted(s) && i < |s|
    ensures Sorted(RemoveAt(s, i))
    ensures forall x :: x in RemoveAt(s, i) <==> x in s && x != s[i]
  {
    assert s == s[..i] + [s[i]] + s[i + 1..];
  }

  lemma SortedTakeMembers(s: seq<int>, m: nat)
    requires Sorted(s) && m < |s|
    ensures Sorted(s[..m])
    ensures forall x :: x in s[..m] <==> x in s && x < s[m]
  {
    assert s == s[..m] + s[m..];
  }

  lemma SortedDropMembers(s: seq<int>, m: nat)
    requires Sorted(s) && m < |s|
    ensures Sorted(s[m..])
    ensures forall x :: x in s[m..] <==> x in s && x >= s[m]
  {
    assert s == s[..m] + s[m..];
  }

  lemma HeadTail<T>(s: seq<T>)
    requires s != []
    ensures [s[0]] + s[1..] == s && |s[1..]| == |s| - 1
  {
  }

  lemma Regroup<T>(a: seq<T>, b: seq<T>, c: seq<T>)
    ensures a + b + c == a + (b + c)
  {
  }

  /** The images of the elements, one after the other. */
  function FlatMap<A, B>(f: A -> seq<B>, s: seq<A>): seq<B> {
    if s == [] then [] else f(s[0]) + FlatMap(f, s[1..])
  }

  lemma {:induction false} FlatMapConcat<A, B>(f: A -> seq<B>, a: seq<A>, b: seq<A>)
    ensures FlatMap(f, a + b) == FlatMap(f, a) + FlatMap(f, b)
    decreases |a|
  {
    if a == [] {
      assert a + b == b;
    } else {
      FlatMapConcat(f, a[1..], b);
      assert (a + b)[1..] == a[1..] + b;
    }
  }

  lemma FlatMapOne<A, B>(f: A -> seq<B>, x: A)
    ensures FlatMap(f, [x]) == f(x)
  {
    assert [x][1..] == [];
  }

  lemma FlatMapFirst<A, B>(f: A -> seq<B>, s: seq<A>)
    requires s != []
    ensures FlatMap(f, s) == f(s[0]) + FlatMap(f, s[1..])
  {
  }
}
