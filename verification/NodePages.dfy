/** Node pages as the buffers they are: entries shifted in place, searched by bisection. */
module NodePages {
  import opened Types
  import opened Sequences
  import opened Nodes

  /** A page holds a 20-byte header and 18-byte leaf entries, or a 28-byte header and
      16-byte routing entries. */
  const LEAF_SLOTS := (PAGE_SIZE - 20) / 18
  const ROUTE_SLOTS := (PAGE_SIZE - 28) / 16

  /** sort.Search over the first n keys for the first one that is at least k. */
  method SearchAtLeast(keys: array<Key>, n: nat, k: Key) returns (i: nat)
    requires n <= keys.Length && Ordered(keys[..n])
    ensures i == FirstAtLeast(keys[..n], k)
  {
    var lo, hi := 0, n;
    ghost var s := keys[..n];
    while lo < hi
      invariant 0 <= lo <= hi <= n
      invariant lo > 0 ==> s[lo - 1] < k
      invariant hi < n ==> k <= s[hi]
    {
      var mid := (lo + hi) / 2;
      if keys[mid] >= k { hi := mid; } else { lo := mid + 1; }
    }
    i := lo;
    FirstAtLeastIs(s, k, i);
  }

  /** sort.Search over the first n keys for the first one above k. */
  method SearchAbove(keys: array<Key>, n: nat, k: Key) returns (i: nat)
    requires n <= keys.Length && Ordered(keys[..n])
    ensures i == FirstAbove(keys[..n], k)
  {
    var lo, hi := 0, n;
    ghost var s := keys[..n];
    while lo < hi
      invariant 0 <= lo <= hi <= n
      invariant lo > 0 ==> s[lo - 1] <= k
      invariant hi < n ==> k < s[hi]
    {
      var mid := (lo + hi) / 2;
      if k < keys[mid] { hi := mid; } else { lo := mid + 1; }
    }
    i := lo;
    FirstAboveIs(s, k, i);
  }

  lemma FirstAboveIs(s: seq<int>, k: int, i: nat)
    requires Ordered(s) && i <= |s| && (i > 0 ==> s[i - 1] <= k) && (i < |s| ==> k < s[i])
    ensures FirstAbove(s, k) == i
  {
  }

  /** Moves the first n entries from idx on one place up and stores x at idx. */
  method OpenSlot<T>(a: array<T>, n: nat, idx: nat, x: T)
    requires idx <= n < a.Length
    modifies a
    ensures a[..n + 1] == InsertAt(old(a[..n]), idx, x)
  {
    var i := n;
    while i > idx
      invariant idx <= i <= n
      invariant forall j :: 0 <= j < i ==> a[j] == old(a[j])
      invariant forall j :: i < j <= n ==> a[j] == old(a[j - 1])
    {
      a[i] := a[i - 1];
      i := i - 1;
    }
    a[idx] := x;
    OpenedIs(old(a[..n]), a[..n + 1], idx, x);
  }

  lemma OpenedIs<T>(before: seq<T>, after: seq<T>, idx: nat, x: T)
    requires idx <= |before| && |after| == |before| + 1 && after[idx] == x
    requires forall j :: 0 <= j < idx ==> after[j] == before[j]
    requires forall j :: idx < j < |after| ==> after[j] == before[j - 1]
    ensures after == InsertAt(before, idx, x)
  {
  }

  /** Moves the first n entries after idx one place down, over the entry at idx. */
  method CloseSlot<T>(a: array<T>, n: nat, idx: nat)
    requires idx < n <= a.Length
    modifies a
    ensures a[..n - 1] == RemoveAt(old(a[..n]), idx)
  {
    var i := idx;
    while i < n - 1
      invariant idx <= i <= n - 1
      invariant forall j :: 0 <= j < idx || i < j < n ==> a[j] == old(a[j])
      invariant forall j :: idx <= j < i ==> a[j] == old(a[j + 1])
    {
      a[i] := a[i + 1];
      i := i + 1;
    }
    ClosedIs(old(a[..n]), a[..n - 1], idx);
  }

  lemma ClosedIs<T>(before: seq<T>, after: seq<T>, idx: nat)
    requires idx < |before| && |after| == |before| - 1
    requires forall j :: 0 <= j < idx ==> after[j] == before[j]
    requires forall j :: idx <= j < |after| ==> after[j] == before[j + 1]
    ensures after == RemoveAt(before, idx)
  {
  }

  /** Copies n entries of src from position from on to the start of dst. */
  method CopyEntries<T>(src: array<T>, from: nat, dst: array<T>, n: nat)
    requires from + n <= src.Length && n <= dst.Length && src != dst
    modifies dst
    ensures dst[..n] == src[from..from + n]
  {
    for i := 0 to n
      invariant forall j :: 0 <= j < i ==> dst[j] == src[from + j]
    {
      dst[i] := src[from + i];
    }
  }

  lemma Halves<T>(s: seq<T>, n: nat, mid: nat)
    requires mid < n <= |s|
    ensures s[..n][..mid] == s[..mid] && s[..n][mid + 1..] == s[mid + 1..n]
  {
  }

  lemma NotFound(s: seq<int>, k: int)
    requires Ordered(s) && (FirstAtLeast(s, k) < |s| ==> s[FirstAtLeast(s, k)] != k)
    ensures k !in s
  {
  }

  lemma OrderedHalves(s: seq<int>, m: nat)
    requires Ordered(s) && m < |s|
    ensures Ordered(s[..m]) && Ordered(s[m + 1..])
  {
  }

  lemma OrderedInsert(s: seq<int>, k: int)
    requires Ordered(s)
    ensures Ordered(InsertAt(s, FirstAtLeast(s, k), k))
  {
  }

  lemma OrderedRemove(s: seq<int>, i: nat)
    requires Ordered(s) && i < |s|
    ensures Ordered(RemoveAt(s, i))
  {
  }

  lemma PrependInsert<T>(c: T, s: seq<T>, i: nat, x: T)
    requires i <= |s|
    ensures [c] + InsertAt(s, i, x) == InsertAt([c] + s, i + 1, x)
  {
  }

  lemma PrependRemove<T>(c: T, s: seq<T>, i: nat)
    requires i < |s|
    ensures [c] + RemoveAt(s, i) == RemoveAt([c] + s, i + 1)
  {
  }

  lemma PrependSplit<T>(c: T, s: seq<T>, m: nat)
    requires m < |s|
    ensures [c] + s[..m] == ([c] + s)[..m + 1]
    ensures [s[m]] + s[m + 1..] == ([c] + s)[m + 1..]
  {
  }

  /** The halves of a split route, as stretches of the two buffers. */
  lemma RouteHalvesAre(n: Node, isRoot: bool, parent: PageId, child0: PageId, keys: seq<Key>, children: seq<PageId>,
                       count: nat, mid: nat)
    requires mid < count <= |keys| && count <= |children|
    requires n == Internal(isRoot, parent, keys[..count], [child0] + children[..count])
    ensures RouteSplit(n, mid) == (Internal(isRoot, parent, keys[..mid], [child0] + children[..mid]), keys[mid],
                                   Internal(false, parent, keys[mid + 1..count],
                                            [children[mid]] + children[mid + 1..count]))
  {
    PrependSplit(child0, children[..count], mid);
    Halves(keys, count, mid);
    Halves(children, count, mid);
  }

  class LeafPage {
    var isRoot: bool
    var parent: PageId
    var next: PageId
    var keyCount: nat
    const keys: array<Key>
    const rids: array<RID>

    ghost predicate Valid()
      reads this, keys
    {
      && keys.Length == LEAF_SLOTS && rids.Length == LEAF_SLOTS && keys as object != rids
      && keyCount <= LEAF_SLOTS && Sorted(keys[..keyCount])
    }

    ghost function View(): (n: Node)
      requires Valid()
      reads this, keys, rids
      ensures n.Leaf? && n.Shaped()
    {
      Leaf(isRoot, parent, next, keys[..keyCount], rids[..keyCount])
    }

    /** InitLeafNode on the buffer of a new page. */
    constructor (isRoot: bool, parent: PageId)
      ensures Valid() && View() == Leaf(isRoot, parent, 0, [], []) && fresh(keys) && fresh(rids)
    {
      this.isRoot, this.parent, this.next, this.keyCount := isRoot, parent, 0, 0;
      keys := new Key[LEAF_SLOTS](_ => 0);
      rids := new RID[LEAF_SLOTS](_ => RID(0, 0));
    }

    method Lookup(key: Key) returns (r: Option<RID>)
      requires Valid()
      ensures r == LeafLookup(View(), key)
    {
      var i := SearchAtLeast(keys, keyCount, key);
      if i < keyCount && keys[i] == key {
        r := Some(rids[i]);
      } else {
        r := None;
      }
    }

    method Insert(key: Key, rid: RID) returns (added: bool)
      requires Valid() && (key in View().keys || keyCount < LEAF_SLOTS)
      modifies this`keyCount, keys, rids
      ensures Valid() && View() == old(LeafInsert(View(), key, rid))
      ensures added <==> key !in old(View()).keys
    {
      var i := SearchAtLeast(keys, keyCount, key);
      ghost var before := keys[..keyCount];
      if i < keyCount && keys[i] == key {
        assert before[i] == key;
        rids[i] := rid;
        assert rids[..keyCount] == old(rids[..keyCount])[i := rid];
        return false;
      }
      NotFound(before, key);
      SortedInsert(before, key);
      OpenSlot(keys, keyCount, i, key);
      OpenSlot(rids, keyCount, i, rid);
      keyCount := keyCount + 1;
      return true;
    }

    method Delete(key: Key) returns (found: bool)
      requires Valid()
      modifies this`keyCount, keys, rids
      ensures Valid() && View() == old(LeafDelete(View(), key))
      ensures found <==> key in old(View()).keys
    {
      var i := SearchAtLeast(keys, keyCount, key);
      ghost var before := keys[..keyCount];
      if i >= keyCount || keys[i] != key {
        NotFound(before, key);
        return false;
      }
      assert before[i] == key;
      SortedRemove(before, i);
      CloseSlot(keys, keyCount, i);
      CloseSlot(rids, keyCount, i);
      keyCount := keyCount - 1;
      return true;
    }

    /** Moves the upper half into the fresh page right, and links right into the chain. */
    method Split(right: LeafPage, newPageID: PageId) returns (splitKey: Key)
      requires Valid() && keyCount >= 1 && right.Valid() && right.keyCount == 0 && !right.isRoot
      requires {right.keys as object, right.rids} !! {keys as object, rids} && right != this
      modifies this`keyCount, this`next, right, right.keys, right.rids
      ensures Valid() && right.Valid()
      ensures View() == old(LeafSplit(View(), keyCount / 2, newPageID).0)
      ensures right.View() == old(LeafSplit(View(), keyCount / 2, newPageID).1)
      ensures splitKey == right.View().keys[0]
    {
      var mid := keyCount / 2;
      var rightCount := keyCount - mid;
      ghost var all, allRids := keys[..keyCount], rids[..keyCount];
      CopyEntries(keys, mid, right.keys, rightCount);
      CopyEntries(rids, mid, right.rids, rightCount);
      assert right.keys[..rightCount] == all[mid..] && right.rids[..rightCount] == allRids[mid..];
      assert keys[..mid] == all[..mid] && rids[..mid] == allRids[..mid];
      right.parent, right.next, right.keyCount := parent, next, rightCount;
      keyCount, next := mid, newPageID;
      splitKey := right.keys[0];
    }
  }

  class InternalPage {
    var isRoot: bool
    var parent: PageId
    var keyCount: nat
    var child0: PageId
    const keys: array<Key>
    const children: array<PageId>

    ghost predicate Valid()
      reads this, keys
    {
      && keys.Length == ROUTE_SLOTS && children.Length == ROUTE_SLOTS && keys != children
      && keyCount <= ROUTE_SLOTS && Ordered(keys[..keyCount])
    }

    ghost function View(): (n: Node)
      requires Valid()
      reads this, keys, children
      ensures n.Internal? && n.Shaped()
    {
      Internal(isRoot, parent, keys[..keyCount], [child0] + children[..keyCount])
    }

    constructor (isRoot: bool, parent: PageId, child0: PageId)
      ensures Valid() && View() == Internal(isRoot, parent, [], [child0]) && fresh(keys) && fresh(children)
    {
      this.isRoot, this.parent, this.keyCount, this.child0 := isRoot, parent, 0, child0;
      keys := new Key[ROUTE_SLOTS](_ => 0);
      children := new PageId[ROUTE_SLOTS](_ => 0);
    }

    method Lookup(key: Key) returns (c: PageId)
      requires Valid()
      ensures c == Route(View(), key)
    {
      var i := SearchAbove(keys, keyCount, key);
      if i == 0 {
        c := child0;
      } else {
        c := children[i - 1];
      }
    }

    method Insert(key: Key, childID: PageId)
      requires Valid() && keyCount < ROUTE_SLOTS
      modifies this`keyCount, keys, children
      ensures Valid() && View() == old(RouteInsert(View(), key, childID))
    {
      var i := SearchAtLeast(keys, keyCount, key);
      ghost var after := RouteInsert(View(), key, childID);
      OrderedInsert(keys[..keyCount], key);
      PrependInsert(child0, children[..keyCount], i, childID);
      OpenSlot(keys, keyCount, i, key);
      OpenSlot(children, keyCount, i, childID);
      keyCount := keyCount + 1;
      assert keys[..keyCount] == after.keys;
      assert [child0] + children[..keyCount] == after.children;
    }

    method Delete(key: Key) returns (found: bool)
      requires Valid()
      modifies this`keyCount, keys, children
      ensures Valid() && View() == old(RouteDelete(View(), key))
      ensures found <==> key in old(View()).keys
    {
      var i := SearchAtLeast(keys, keyCount, key);
      ghost var before, kids := keys[..keyCount], children[..keyCount];
      if i >= keyCount || keys[i] != key {
        NotFound(before, key);
        return false;
      }
      assert before[i] == key;
      ghost var after := RouteDelete(View(), key);
      OrderedRemove(before, i);
      PrependRemove(child0, kids, i);
      CloseSlot(keys, keyCount, i);
      CloseSlot(children, keyCount, i);
      keyCount := keyCount - 1;
      assert keys[..keyCount] == after.keys;
      assert [child0] + children[..keyCount] == after.children;
      return true;
    }

    /** Fills this fresh page with a stretch of another page's entries. */
    method Fill(parent: PageId, child0: PageId, srcKeys: array<Key>, srcChildren: array<PageId>, from: nat, n: nat)
      requires Valid() && keyCount == 0 && n <= ROUTE_SLOTS
      requires {keys, children} !! {srcKeys, srcChildren}
      requires from + n <= srcKeys.Length && from + n <= srcChildren.Length && Ordered(srcKeys[from..from + n])
      modifies this, keys, children
      ensures Valid()
      ensures View() == Internal(old(isRoot), parent, srcKeys[from..from + n], [child0] + srcChildren[from..from + n])
    {
      CopyEntries(srcKeys, from, keys, n);
      CopyEntries(srcChildren, from, children, n);
      this.parent, this.child0, keyCount := parent, child0, n;
    }

    /** Copies the keys above position mid, and their children, into the fresh page right. */
    method CopyUpper(right: InternalPage, mid: nat)
      requires Valid() && mid < keyCount && right.Valid() && right.keyCount == 0 && !right.isRoot
      requires {right.keys, right.children} !! {keys, children} && right != this
      modifies right, right.keys, right.children
      ensures right.Valid() && right.View() == old(RouteSplit(View(), mid).2)
    {
      OrderedHalves(keys[..keyCount], mid);
      Halves(keys[..], keyCount, mid);
      RouteHalvesAre(View(), isRoot, parent, child0, keys[..], children[..], keyCount, mid);
      right.Fill(parent, children[mid], keys, children, mid + 1, keyCount - mid - 1);
    }

    /** Moves the keys above the middle one into the fresh page right, and promotes the middle one. */
    method Split(right: InternalPage) returns (promotedKey: Key)
      requires Valid() && keyCount >= 1 && right.Valid() && right.keyCount == 0 && !right.isRoot
      requires {right.keys, right.children} !! {keys, children} && right != this
      modifies this`keyCount, right, right.keys, right.children
      ensures Valid() && right.Valid()
      ensures View() == old(RouteSplit(View(), keyCount / 2).0)
      ensures promotedKey == old(RouteSplit(View(), keyCount / 2).1)
      ensures right.View() == old(RouteSplit(View(), keyCount / 2).2)
    {
      var mid := keyCount / 2;
      promotedKey := keys[mid];
      ghost var halves := RouteSplit(View(), mid);
      RouteHalvesAre(View(), isRoot, parent, child0, keys[..], children[..], keyCount, mid);
      CopyUpper(right, mid);
      keyCount := mid;
      assert View() == halves.0;
    }
  }
}
