/** B+ tree nodes as values, and what each node operation does to them. */
module Nodes {
  import opened Types
  import opened Sequences

  const MAX_ENTRIES := 200
  const MIN_LEAF := 100

  /** children[0] is the page the program calls Child0; children[i + 1] is its Child(i). */
  datatype Node =
    | Leaf(isRoot: bool, parent: PageId, next: PageId, keys: seq<Key>, rids: seq<RID>)
    | Internal(isRoot: bool, parent: PageId, keys: seq<Key>, children: seq<PageId>)
  {
    /** Entry counts agree; this is all the node operations rely on. */
    predicate Shaped() {
      match this
      case Leaf(_, _, _, _, _) => |rids| == |keys|
      case Internal(_, _, _, _) => |children| == |keys| + 1
    }

    ghost predicate WellFormed() {
      Shaped() && Sorted(keys)
    }

    predicate IsFull() {
      |keys| >= MAX_ENTRIES
    }
  }

  function LeafLookup(n: Node, k: Key): (r: Option<RID>)
    requires n.Leaf? && n.Shaped()
  {
    var i := FirstAtLeast(n.keys, k);
    if i < |n.keys| && n.keys[i] == k then Some(n.rids[i]) else None
  }

  function LeafInsert(n: Node, k: Key, r: RID): (m: Node)
    requires n.Leaf? && n.Shaped()
    ensures m.Leaf? && m.Shaped()
  {
    var i := FirstAtLeast(n.keys, k);
    if i < |n.keys| && n.keys[i] == k then
      n.(rids := n.rids[i := r])
    else
      n.(keys := InsertAt(n.keys, i, k), rids := InsertAt(n.rids, i, r))
  }

  function LeafDelete(n: Node, k: Key): (m: Node)
    requires n.Leaf? && n.Shaped()
    ensures m.Leaf? && m.Shaped()
  {
    var i := FirstAtLeast(n.keys, k);
    if i < |n.keys| && n.keys[i] == k then
      n.(keys := RemoveAt(n.keys, i), rids := RemoveAt(n.rids, i))
    else
      n
  }

  /** The left and the right node of a leaf split at m entries, the right one on page rightID. */
  function LeafSplit(n: Node, m: nat, rightID: PageId): (r: (Node, Node))
    requires n.Leaf? && n.Shaped() && m <= |n.keys|
    ensures r.0.Leaf? && r.1.Leaf? && r.0.Shaped() && r.1.Shaped()
  {
    (n.(keys := n.keys[..m], rids := n.rids[..m], next := rightID),
     Leaf(false, n.parent, n.next, n.keys[m..], n.rids[m..]))
  }

  function Route(n: Node, k: Key): (c: PageId)
    requires n.Internal? && n.Shaped()
  {
    n.children[FirstAbove(n.keys, k)]
  }

  function RouteInsertAt(n: Node, i: nat, k: Key, c: PageId): (m: Node)
    requires n.Internal? && n.Shaped() && i <= |n.keys|
    ensures m.Internal? && m.Shaped()
  {
    n.(keys := InsertAt(n.keys, i, k), children := InsertAt(n.children, i + 1, c))
  }

  function RouteInsert(n: Node, k: Key, c: PageId): (m: Node)
    requires n.Internal? && n.Shaped()
    ensures m.Internal? && m.Shaped()
  {
    RouteInsertAt(n, FirstAtLeast(n.keys, k), k, c)
  }

  /** The left node, the promoted key and the right node of an internal split at key m. */
  function RouteSplit(n: Node, m: nat): (r: (Node, Key, Node))
    requires n.Internal? && n.Shaped() && m < |n.keys|
    ensures r.0.Internal? && r.2.Internal? && r.0.Shaped() && r.2.Shaped()
  {
    (n.(keys := n.keys[..m], children := n.children[..m + 1]),
     n.keys[m],
     Internal(false, n.parent, n.keys[m + 1..], n.children[m + 1..]))
  }

  function RouteDelete(n: Node, k: Key): (m: Node)
    requires n.Internal? && n.Shaped()
    ensures m.Internal? && m.Shaped()
  {
    var i := FirstAtLeast(n.keys, k);
    if i < |n.keys| && n.keys[i] == k then
      n.(keys := RemoveAt(n.keys, i), children := RemoveAt(n.children, i + 1))
    else
      n
  }

  /** The entries of a leaf as a map. */
  ghost function Entries(n: Node): (m: map<Key, RID>)
    requires n.Leaf? && n.Shaped()
    ensures m.Keys == set k | k in n.keys
  {
    map k | k in n.keys :: n.rids[FirstAtLeast(n.keys, k)]
  }

  /** The part of a map whose keys lie in [lo, hi). */
  ghost function Slice(c: map<Key, RID>, lo: Key, hi: Key): map<Key, RID> {
    map k | k in c && lo <= k < hi :: c[k]
  }

  lemma EntryAt(n: Node, i: nat)
    requires n.Leaf? && n.WellFormed() && i < |n.keys|
    ensures n.keys[i] in Entries(n) && Entries(n)[n.keys[i]] == n.rids[i] && FirstAtLeast(n.keys, n.keys[i]) == i
  {
  }

  lemma EntriesAre(n: Node, m: map<Key, RID>)
    requires n.Leaf? && n.WellFormed()
    requires m.Keys == set k | k in n.keys
    requires forall i :: 0 <= i < |n.keys| ==> n.keys[i] in m && m[n.keys[i]] == n.rids[i]
    ensures Entries(n) == m
  {
    forall k | k in n.keys ensures Entries(n)[k] == m[k] {
      var i :| 0 <= i < |n.keys| && n.keys[i] == k;
      EntryAt(n, i);
    }
  }

  lemma LookupIsEntries(n: Node, k: Key)
    requires n.Leaf? && n.WellFormed()
    ensures LeafLookup(n, k) == if k in Entries(n) then Some(Entries(n)[k]) else None
  {
  }

  // ---------- a leaf operation is the same operation on the map of its entries ----------

  lemma LeafInsertIsMapUpdate(n: Node, k: Key, r: RID)
    requires n.Leaf? && n.WellFormed()
    ensures LeafInsert(n, k, r).WellFormed()
    ensures Entries(LeafInsert(n, k, r)) == Entries(n)[k := r]
    ensures |LeafInsert(n, k, r).keys| == |n.keys| + (if k in n.keys then 0 else 1)
  {
    var i := FirstAtLeast(n.keys, k);
    if i < |n.keys| && n.keys[i] == k {
      LeafReplace(n, i, r);
    } else {
      if k in n.keys { FirstAtLeastFinds(n.keys, k); }
      LeafInsertNewKey(n, k, r);
    }
  }

  lemma LeafReplace(n: Node, i: nat, r: RID)
    requires n.Leaf? && n.WellFormed() && i < |n.keys|
    ensures Entries(n.(rids := n.rids[i := r])) == Entries(n)[n.keys[i] := r]
  {
    var m, e := n.(rids := n.rids[i := r]), Entries(n)[n.keys[i] := r];
    EntryAt(n, i);
    forall j | 0 <= j < |m.keys| ensures m.keys[j] in e && e[m.keys[j]] == m.rids[j] {
      EntryAt(n, j);
    }
    EntriesAre(m, e);
  }

  lemma LeafInsertNewKey(n: Node, k: Key, r: RID)
    requires n.Leaf? && n.WellFormed() && k !in n.keys
    ensures LeafInsert(n, k, r).WellFormed()
    ensures Entries(LeafInsert(n, k, r)) == Entries(n)[k := r]
    ensures |LeafInsert(n, k, r).keys| == |n.keys| + 1
  {
    var i := FirstAtLeast(n.keys, k);
    var m, e := LeafInsert(n, k, r), Entries(n)[k := r];
    SortedInsert(n.keys, k);
    InsertAtMembers(n.keys, i, k);
    forall j | 0 <= j < |m.keys| ensures m.keys[j] in e && e[m.keys[j]] == m.rids[j] {
      InsertAtElement(n.keys, i, k, j);
      InsertAtElement(n.rids, i, r, j);
      if j != i { EntryAt(n, if j < i then j else j - 1); }
    }
    EntriesAre(m, e);
  }

  lemma LeafDeleteIsMapRemove(n: Node, k: Key)
    requires n.Leaf? && n.WellFormed()
    ensures LeafDelete(n, k).WellFormed()
    ensures Entries(LeafDelete(n, k)) == Entries(n) - {k}
    ensures |LeafDelete(n, k).keys| == |n.keys| - (if k in n.keys then 1 else 0)
  {
    if k in n.keys {
      LeafDeleteFound(n, k);
    } else {
      assert Entries(n) - {k} == Entries(n);
    }
  }

  lemma LeafDeleteFound(n: Node, k: Key)
    requires n.Leaf? && n.WellFormed() && k in n.keys
    ensures LeafDelete(n, k).WellFormed()
    ensures Entries(LeafDelete(n, k)) == Entries(n) - {k}
    ensures |LeafDelete(n, k).keys| == |n.keys| - 1
  {
    FirstAtLeastFinds(n.keys, k);
    var i := FirstAtLeast(n.keys, k);
    var m := LeafDelete(n, k);
    SortedRemove(n.keys, i);
    forall j | 0 <= j < |m.keys| ensures m.keys[j] in Entries(n) && Entries(n)[m.keys[j]] == m.rids[j] {
      RemoveAtElement(n.keys, i, j);
      RemoveAtElement(n.rids, i, j);
      EntryAt(n, if j < i then j else j + 1);
    }
    EntriesAre(m, Entries(n) - {k});
  }

  // ---------- a leaf split divides the entries at the first right key ----------

  lemma LeafSplitLeft(n: Node, m: nat, rightID: PageId, lo: Key)
    requires n.Leaf? && n.WellFormed() && m < |n.keys|
    requires forall k :: k in n.keys ==> lo <= k
    ensures LeafSplit(n, m, rightID).0.WellFormed()
    ensures Entries(LeafSplit(n, m, rightID).0) == Slice(Entries(n), lo, n.keys[m])
  {
    SortedTakeMembers(n.keys, m);
    var left, e := LeafSplit(n, m, rightID).0, Slice(Entries(n), lo, n.keys[m]);
    assert e.Keys == set k | k in left.keys;
    forall j | 0 <= j < |left.keys| ensures left.keys[j] in e && e[left.keys[j]] == left.rids[j] {
      EntryAt(n, j);
    }
    EntriesAre(left, e);
  }

  lemma SuffixEntry(n: Node, m: nat, j: nat)
    requires n.Leaf? && n.WellFormed() && m <= |n.keys| && j < |n.keys| - m
    ensures n.keys[m..][j] in Entries(n) && Entries(n)[n.keys[m..][j]] == n.rids[m..][j]
  {
  }

  lemma LeafSplitRight(n: Node, m: nat, rightID: PageId, hi: Key)
    requires n.Leaf? && n.WellFormed() && m < |n.keys|
    requires forall k :: k in n.keys ==> k < hi
    ensures LeafSplit(n, m, rightID).1.WellFormed()
    ensures Entries(LeafSplit(n, m, rightID).1) == Slice(Entries(n), n.keys[m], hi)
  {
    SortedDropMembers(n.keys, m);
    var right, e := LeafSplit(n, m, rightID).1, Slice(Entries(n), n.keys[m], hi);
    assert e.Keys == set k | k in right.keys;
    forall j | 0 <= j < |right.keys| ensures right.keys[j] in e && e[right.keys[j]] == right.rids[j] {
      SuffixEntry(n, m, j);
    }
    EntriesAre(right, e);
  }

  // ---------- splitting a full route, then inserting into one half ----------

  lemma RouteInsertSize(n: Node, k: Key, c: PageId)
    requires n.Internal? && n.Shaped()
    ensures |RouteInsert(n, k, c).keys| == |n.keys| + 1
  {
  }

  lemma SplitThenInsertAtLeft(n: Node, m: nat, i: nat, k: Key, c: PageId)
    requires n.Internal? && n.Shaped() && i <= m < |n.keys|
    ensures RouteSplit(RouteInsertAt(n, i, k, c), m + 1)
         == (RouteInsertAt(RouteSplit(n, m).0, i, k, c), RouteSplit(n, m).1, RouteSplit(n, m).2)
  {
    InsertAtTake(n.keys, i, k, m);
    InsertAtElement(n.keys, i, k, m + 1);
    InsertAtTake(n.keys, i, k, m + 1);
    InsertAtTake(n.children, i + 1, c, m + 1);
  }

  /** Inserting into the left half gives the halves of the whole, split one place further. */
  lemma SplitThenInsertLeft(n: Node, m: nat, k: Key, c: PageId)
    requires n.Internal? && n.WellFormed() && m < |n.keys| && k < n.keys[m]
    ensures RouteSplit(RouteInsert(n, k, c), m + 1)
         == (RouteInsert(RouteSplit(n, m).0, k, c), RouteSplit(n, m).1, RouteSplit(n, m).2)
  {
    FirstAtLeastTake(n.keys, k, m);
    SplitThenInsertAtLeft(n, m, FirstAtLeast(n.keys, k), k, c);
  }

  lemma SplitThenInsertAtRight(n: Node, m: nat, i: nat, k: Key, c: PageId)
    requires n.Internal? && n.Shaped() && m < i <= |n.keys|
    ensures RouteSplit(RouteInsertAt(n, i, k, c), m)
         == (RouteSplit(n, m).0, RouteSplit(n, m).1, RouteInsertAt(RouteSplit(n, m).2, i - m - 1, k, c))
  {
    InsertAtDrop(n.keys, i, k, m);
    InsertAtElement(n.keys, i, k, m);
    InsertAtDrop(n.keys, i, k, m + 1);
    InsertAtDrop(n.children, i + 1, c, m + 1);
  }

  /** Inserting into the right half gives the halves of the whole, split at the same place. */
  lemma SplitThenInsertRight(n: Node, m: nat, k: Key, c: PageId)
    requires n.Internal? && n.WellFormed() && m < |n.keys| && n.keys[m] < k
    ensures RouteSplit(RouteInsert(n, k, c), m)
         == (RouteSplit(n, m).0, RouteSplit(n, m).1, RouteInsert(RouteSplit(n, m).2, k, c))
  {
    var i, right := FirstAtLeast(n.keys, k), RouteSplit(n, m).2;
    FirstAtLeastDrop(n.keys, k, m);
    RouteInsertIsAt(n, k, c, i);
    RouteInsertIsAt(right, k, c, i - m - 1);
    SplitThenInsertAtRight(n, m, i, k, c);
  }

  lemma RouteInsertIsAt(n: Node, k: Key, c: PageId, i: nat)
    requires n.Internal? && n.Shaped() && i == FirstAtLeast(n.keys, k)
    ensures RouteInsert(n, k, c) == RouteInsertAt(n, i, k, c)
  {
  }
}
