/** Leaf underflow: when borrowing and merging keep a B+ tree, and when they cannot. */
module TreeDelete {
  import opened Types
  import opened Sequences
  import opened Nodes
  import opened TreeInvariant
  import opened TreeRebalance

  function IndexOf(s: seq<PageId>, x: PageId): (i: nat)
    ensures i <= |s| && (i < |s| ==> s[i] == x) && forall t :: 0 <= t < i ==> s[t] != x
  {
    if s == [] || s[0] == x then 0 else 1 + IndexOf(s[1..], x)
  }

  /** The leaf n after the first j entries of m have been inserted into it. */
  function InsertAll(n: Node, m: Node, j: nat): (r: Node)
    requires n.Leaf? && n.Shaped() && m.Leaf? && m.Shaped() && j <= |m.keys|
    ensures r.Leaf? && r.Shaped() && r.isRoot == n.isRoot && r.parent == n.parent && r.next == n.next
  {
    if j == 0 then n else LeafInsert(InsertAll(n, m, j - 1), m.keys[j - 1], m.rids[j - 1])
  }

  /** The leaf n with every entry of m inserted, taking over m's place in the chain. */
  function Absorb(n: Node, m: Node): (r: Node)
    requires n.Leaf? && n.Shaped() && m.Leaf? && m.Shaped()
    ensures r.Leaf? && r.Shaped()
  {
    var all := InsertAll(n, m, |m.keys|);
    Leaf(all.isRoot, all.parent, m.next, all.keys, all.rids)
  }

  function Prefix(m: Node, j: nat): (r: Node)
    requires m.Leaf? && m.Shaped() && j <= |m.keys|
    ensures r.Leaf? && r.Shaped()
  {
    Leaf(false, 0, 0, m.keys[..j], m.rids[..j])
  }

  lemma {:induction false} InsertAllIsUnion(n: Node, m: Node, j: nat)
    requires n.Leaf? && n.WellFormed() && m.Leaf? && m.WellFormed() && j <= |m.keys|
    ensures InsertAll(n, m, j).WellFormed()
    ensures Entries(InsertAll(n, m, j)) == Entries(n) + Entries(Prefix(m, j))
    decreases j
  {
    if j == 0 {
      assert Entries(Prefix(m, 0)) == map[];
    } else {
      InsertAllIsUnion(n, m, j - 1);
      LeafInsertIsMapUpdate(InsertAll(n, m, j - 1), m.keys[j - 1], m.rids[j - 1]);
      PrefixEntries(m, j);
      UnionUpdate(Entries(n), Entries(Prefix(m, j - 1)), m.keys[j - 1], m.rids[j - 1]);
    }
  }

  lemma {:induction false} InsertAllSize(n: Node, m: Node, j: nat)
    requires n.Leaf? && n.Shaped() && m.Leaf? && m.Shaped() && j <= |m.keys|
    ensures |InsertAll(n, m, j).keys| <= |n.keys| + j
    decreases j
  {
    if j > 0 { InsertAllSize(n, m, j - 1); }
  }

  lemma UnionUpdate(a: map<Key, RID>, b: map<Key, RID>, k: Key, r: RID)
    ensures a + b[k := r] == (a + b)[k := r]
  {
  }

  lemma PrefixEntries(m: Node, j: nat)
    requires m.Leaf? && m.WellFormed() && 1 <= j <= |m.keys|
    ensures Entries(Prefix(m, j)) == Entries(Prefix(m, j - 1))[m.keys[j - 1] := m.rids[j - 1]]
  {
    var front, less := Prefix(m, j), Prefix(m, j - 1);
    var e := Entries(less)[m.keys[j - 1] := m.rids[j - 1]];
    assert front.keys == less.keys + [m.keys[j - 1]];
    assert e.Keys == set k | k in front.keys;
    forall i | 0 <= i < |front.keys| ensures front.keys[i] in e && e[front.keys[i]] == front.rids[i] {
      if i < j - 1 { EntryAt(less, i); }
    }
    EntriesAre(front, e);
  }

  lemma InsertAllEntries(n: Node, m: Node)
    requires n.Leaf? && n.WellFormed() && m.Leaf? && m.WellFormed()
    ensures InsertAll(n, m, |m.keys|).WellFormed() && |InsertAll(n, m, |m.keys|).keys| <= |n.keys| + |m.keys|
    ensures Entries(InsertAll(n, m, |m.keys|)) == Entries(n) + Entries(m)
  {
    InsertAllIsUnion(n, m, |m.keys|);
    InsertAllSize(n, m, |m.keys|);
    LeafFrame(Prefix(m, |m.keys|), m);
  }

  // ---------- borrowing ----------

  lemma OwnedKeys(n: Node, s: Span, contents: map<Key, RID>, k: Key)
    requires n.Leaf? && n.WellFormed() && LeafHolds(n, s, contents)
    ensures k in n.keys <==> k in contents && s.lo <= k < s.hi
    ensures k in n.keys ==> Entries(n)[k] == contents[k]
  {
    assert k in Entries(n) <==> k in Slice(contents, s.lo, s.hi);
  }

  lemma SliceTop(c: map<Key, RID>, lo: Key, key: Key, mid: Key, hi: Key)
    requires key in c && lo <= key < mid <= hi && forall k :: k in c && lo <= k < mid ==> k <= key
    ensures Slice(c, lo, mid) - {key} == Slice(c, lo, key)
    ensures Slice(c, mid, hi)[key := c[key]] == Slice(c, key, hi)
  {
  }

  lemma SliceBottom(c: map<Key, RID>, lo: Key, mid: Key, key: Key, second: Key, hi: Key)
    requires key in c && lo <= mid <= key < second <= hi && forall k :: k in c && mid <= k < hi ==>
      k == key || second <= k
    ensures Slice(c, mid, hi) - {key} == Slice(c, second, hi)
    ensures Slice(c, lo, mid)[key := c[key]] == Slice(c, lo, second)
  {
  }

  lemma SliceJoin(c: map<Key, RID>, lo: Key, mid: Key, hi: Key)
    requires lo <= mid <= hi
    ensures Slice(c, lo, mid) + Slice(c, mid, hi) == Slice(c, lo, hi)
  {
  }

  lemma LastOwned(n: Node, s: Span, contents: map<Key, RID>)
    requires n.Leaf? && n.WellFormed() && LeafHolds(n, s, contents) && |n.keys| >= 2
    ensures var key := n.keys[|n.keys| - 1];
      && s.lo < key < s.hi && key in contents && contents[key] == n.rids[|n.keys| - 1]
      && forall k :: k in contents && s.lo <= k < s.hi ==> k <= key
  {
    var last := |n.keys| - 1;
    EntryAt(n, last);
    OwnedKeys(n, s, contents, n.keys[last]);
    OwnedKeys(n, s, contents, n.keys[0]);
    forall k | k in n.keys ensures k <= n.keys[last] {}
    forall k | k in contents ensures s.lo <= k < s.hi ==> k <= n.keys[last] { OwnedKeys(n, s, contents, k); }
  }

  lemma FirstOwned(n: Node, s: Span, contents: map<Key, RID>)
    requires n.Leaf? && n.WellFormed() && LeafHolds(n, s, contents) && |n.keys| >= 2
    ensures var key := n.keys[0];
      && s.lo <= key < n.keys[1] < s.hi && key in contents && contents[key] == n.rids[0]
      && forall k :: k in contents && s.lo <= k < s.hi ==> k == key || n.keys[1] <= k
  {
    EntryAt(n, 0);
    OwnedKeys(n, s, contents, n.keys[0]);
    OwnedKeys(n, s, contents, n.keys[1]);
    forall k | k in n.keys ensures k == n.keys[0] || n.keys[1] <= k {}
    forall k | k in contents
      ensures s.lo <= k < s.hi ==> k == n.keys[0] || n.keys[1] <= k
    {
      OwnedKeys(n, s, contents, k);
    }
  }

  /** Moving the last key of n to the next leaf m moves the boundary between them to that key. */
  lemma BorrowLast(n: Node, m: Node, s: Span, t: Span, contents: map<Key, RID>)
    requires n.Leaf? && n.WellFormed() && LeafHolds(n, s, contents) && |n.keys| >= 2
    requires m.Leaf? && m.WellFormed() && LeafHolds(m, t, contents) && s.hi == t.lo < t.hi
    ensures s.lo < n.keys[|n.keys| - 1] < t.lo
    ensures LeafHolds(LeafDelete(n, n.keys[|n.keys| - 1]), s.(hi := n.keys[|n.keys| - 1]), contents)
    ensures LeafHolds(LeafInsert(m, n.keys[|n.keys| - 1], n.rids[|n.keys| - 1]), t.(lo := n.keys[|n.keys| - 1]),
                      contents)
  {
    var key, rid := n.keys[|n.keys| - 1], n.rids[|n.keys| - 1];
    LeafDeleteIsMapRemove(n, key);
    LeafInsertIsMapUpdate(m, key, rid);
    LastOwned(n, s, contents);
    SliceTop(contents, s.lo, key, s.hi, t.hi);
  }

  /** Moving the first key of m to the previous leaf n moves the boundary to m's second key. */
  lemma BorrowFirst(n: Node, m: Node, s: Span, t: Span, contents: map<Key, RID>)
    requires n.Leaf? && n.WellFormed() && LeafHolds(n, s, contents) && s.lo < s.hi == t.lo
    requires m.Leaf? && m.WellFormed() && LeafHolds(m, t, contents) && |m.keys| >= 2
    ensures s.lo < m.keys[1] < t.hi
    ensures LeafHolds(LeafInsert(n, m.keys[0], m.rids[0]), s.(hi := m.keys[1]), contents)
    ensures LeafHolds(LeafDelete(m, m.keys[0]), t.(lo := m.keys[1]), contents)
  {
    LeafDeleteIsMapRemove(m, m.keys[0]);
    LeafInsertIsMapUpdate(n, m.keys[0], m.rids[0]);
    FirstOwned(m, t, contents);
    SliceBottom(contents, s.lo, t.lo, m.keys[0], m.keys[1], t.hi);
  }

  /** The entries of two adjacent leaves together are those of the joined span. */
  lemma MergeLeaves(n: Node, m: Node, s: Span, t: Span, contents: map<Key, RID>)
    requires n.Leaf? && n.WellFormed() && LeafHolds(n, s, contents)
    requires m.Leaf? && m.WellFormed() && LeafHolds(m, t, contents) && s.lo <= s.hi == t.lo <= t.hi
    ensures InsertAll(n, m, |m.keys|).WellFormed() && |InsertAll(n, m, |m.keys|).keys| <= |n.keys| + |m.keys|
    ensures LeafHolds(InsertAll(n, m, |m.keys|), s.(hi := t.hi), contents)
  {
    InsertAllEntries(n, m);
    SliceJoin(contents, s.lo, s.hi, t.hi);
  }

  // ---------- whether the underflow step keeps the tree ----------

  /** The first slot of a leaf whose keys may all be gone: leftover is what the slot still holds. */
  function FirstSlot(n: Node, leftover: Key): Key {
    if n.keys == [] then leftover else n.keys[0]
  }

  /** The leaf id, now without the key, is child i of the route p. */
  ghost predicate UnderParent(pages: Pages, own: Spans, p: PageId, i: nat, id: PageId) {
    && p in own && p in pages && pages[p].Internal? && pages[p].Shaped() && own[p].height == 1
    && i < |pages[p].children| && pages[p].children[i] == id
    && id in own && id in pages && pages[id].Leaf?
  }

  /** Borrowing always keeps the tree when the lender hangs under the same parent; merging
      keeps it exactly when the separator equals the first key of the absorbed leaf. */
  predicate Rebalances(pages: Pages, p: PageId, i: nat, id: PageId, deleted: Key)
    requires p in pages && pages[p].Internal? && pages[p].Shaped() && i < |pages[p].children|
    requires id in pages && pages[id].Leaf?
  {
    var n := pages[p];
    if i > 0 then
      n.children[i - 1] in pages &&
      (|pages[n.children[i - 1]].keys| > MIN_LEAF || FirstSlot(pages[id], deleted) == n.keys[i - 1])
    else if pages[id].next == 0 then
      true
    else
      |n.keys| > 0 && pages[id].next in pages &&
      (|pages[pages[id].next].keys| > MIN_LEAF
       || (pages[pages[id].next].keys != [] && pages[pages[id].next].keys[0] == n.keys[0]))
  }

  // ---------- why the other cases break the tree ----------

  /** Routes unchanged: every leaf keeps its span, whatever spans the new pages are given. */
  lemma {:induction false} SpansDetermined(pages: Pages, pages': Pages, root: PageId, own: Spans, own': Spans,
                                           contents: map<Key, RID>, contents': map<Key, RID>, id: PageId, leaf: PageId)
    requires Settled(pages, root, own, contents) && Settled(pages', root, own', contents')
    requires RoutesUnchanged(pages, pages', own)
    requires id in own && id in own' && own'[id].lo == own[id].lo && own'[id].hi == own[id].hi
    requires leaf in own && pages[leaf].Leaf? && own[id].lo <= own[leaf].lo < own[id].hi
    ensures own'[id].height == own[id].height
    ensures leaf in own' && own'[leaf] == own[leaf]
    decreases own[id].height
  {
    assert NodeHolds(pages, own, own, contents, id) && NodeHolds(pages', own', own', contents', id);
    assert NodeHolds(pages, own, own, contents, leaf);
    if pages[id].Internal? {
      var j := FirstAbove(pages[id].keys, own[leaf].lo);
      assert ChildHolds(pages, own, id, own[id], j) && ChildHolds(pages', own', id, own'[id], j);
      SpansDetermined(pages, pages', root, own, own', contents, contents', pages[id].children[j], leaf);
    }
  }

  lemma LeavesDetermined(pages: Pages, pages': Pages, root: PageId, own: Spans, own': Spans, contents: map<Key, RID>,
                         contents': map<Key, RID>)
    requires Settled(pages, root, own, contents) && Settled(pages', root, own', contents')
    requires RoutesUnchanged(pages, pages', own)
    ensures forall x :: x in own && x in pages && pages[x].Leaf? ==> x in own' && own'[x] == own[x]
  {
    forall x | x in own && x in pages && pages[x].Leaf? ensures x in own' && own'[x] == own[x] {
      assert NodeHolds(pages, own, own, contents, x);
      SpansDetermined(pages, pages', root, own, own', contents, contents', root, x);
    }
  }

  ghost predicate RoutesUnchanged(pages: Pages, pages': Pages, own: Spans) {
    && (forall x :: x in own ==> x in pages && x in pages' && (pages[x].Leaf? <==> pages'[x].Leaf?))
    && (forall x :: x in own && pages[x].Internal? ==> pages'[x] == pages[x])
  }

  /** A leaf that bypasses a neighbour still routed to leaves no tree. */
  lemma BypassBreaks(pages: Pages, pages': Pages, root: PageId, own: Spans, own': Spans, contents: map<Key, RID>,
                     contents': map<Key, RID>,
                     a: PageId, b: PageId)
    requires Settled(pages, root, own, contents) && RoutesUnchanged(pages, pages', own)
    requires a in own && b in own && pages[a].Leaf? && pages[b].Leaf? && own[a].hi == own[b].lo
    requires pages'[a].Leaf? && pages'[a].next == pages[b].next
    ensures !Settled(pages', root, own', contents')
  {
    if Settled(pages', root, own', contents') {
      LeavesDetermined(pages, pages', root, own, own', contents, contents');
      assert ChainHolds(pages, own, b) && ChainHolds(pages', own', a);
      assert NodeHolds(pages, own, own, contents, b);
      GroundIsLeaf(pages, own, own, contents);
    }
  }

  lemma LeafKeyInSpan(pages: Pages, root: PageId, own: Spans, contents: map<Key, RID>, a: PageId, k: Key)
    requires Settled(pages, root, own, contents) && a in pages && pages[a].Leaf? && k in pages[a].keys
    ensures a in own ==> k < own[a].hi
  {
    if a in own {
      assert NodeHolds(pages, own, own, contents, a);
      OwnedKeys(pages[a], own[a], contents, k);
    }
  }

  /** A key in a leaf that routing does not lead to leaves no tree. */
  lemma StrayKeyBreaks(pages: Pages, pages': Pages, root: PageId, own: Spans, own': Spans, contents: map<Key, RID>,
                       contents': map<Key, RID>,
                       a: PageId, k: Key)
    requires Settled(pages, root, own, contents) && RoutesUnchanged(pages, pages', own)
    requires a in own && pages[a].Leaf? && pages'[a].Leaf? && k in pages'[a].keys && k >= own[a].hi
    ensures !Settled(pages', root, own', contents')
  {
    if Settled(pages', root, own', contents') {
      LeafKeyInSpan(pages', root, own', contents', a, k);
      LeavesDetermined(pages, pages', root, own, own', contents, contents');
    }
  }

  // ---------- each step, in terms of the pages it writes ----------

  lemma UnderIsSibling(pages: Pages, root: PageId, own: Spans, contents: map<Key, RID>, p: PageId, i: nat, id: PageId)
    requires Settled(pages, root, own, contents) && UnderParent(pages, own, p, i, id)
    ensures pages[p].WellFormed() && pages[id].WellFormed() && LeafHolds(pages[id], own[id], contents)
    ensures own[id].lo < own[id].hi
    ensures i > 0 ==> Siblings(pages, own, p, i, pages[p].children[i - 1], id)
    ensures i > 0 ==> pages[pages[p].children[i - 1]].WellFormed()
    ensures i > 0 ==> LeafHolds(pages[pages[p].children[i - 1]], own[pages[p].children[i - 1]], contents)
    ensures i + 1 < |pages[p].children| ==>
      Siblings(pages, own, p, i + 1, id, pages[p].children[i + 1]) && pages[id].next == pages[p].children[i + 1]
    ensures i + 1 < |pages[p].children| ==>
      pages[pages[id].next].WellFormed() && LeafHolds(pages[pages[id].next], own[pages[id].next], contents)
  {
    assert NodeHolds(pages, own, own, contents, p) && NodeHolds(pages, own, own, contents, id);
    if i > 0 {
      SiblingsFromPosition(pages, root, own, contents, p, i);
      assert NodeHolds(pages, own, own, contents, pages[p].children[i - 1]);
    }
    if i + 1 < |pages[p].children| {
      SiblingsFromPosition(pages, root, own, contents, p, i + 1);
      NextIsNeighbour(pages, root, own, contents, id, pages[p].children[i + 1]);
      assert NodeHolds(pages, own, own, contents, pages[p].children[i + 1]);
    }
  }

  lemma LeftBorrowMoves(pages: Pages, root: PageId, own: Spans, contents: map<Key, RID>, p: PageId, i: nat, a: PageId,
                        b: PageId, key: Key, rid: RID)
    requires Settled(pages, root, own, contents) && UnderParent(pages, own, p, i, b) && i > 0
    requires a == pages[p].children[i - 1]
    requires a in pages && pages[a].Leaf? && |pages[a].keys| >= 2 && pages[a].Shaped() && pages[b].Shaped()
    requires key == pages[a].keys[|pages[a].keys| - 1] && rid == pages[a].rids[|pages[a].keys| - 1]
    ensures Moved(pages, own, contents, p, i, LeafDelete(pages[a], key), LeafInsert(pages[b], key, rid), key)
    ensures |LeafDelete(pages[a], key).keys| == |pages[a].keys| - 1
    ensures |LeafInsert(pages[b], key, rid).keys| == |pages[b].keys| + 1
    ensures LeafInsert(pages[b], key, rid).keys[0] == key
  {
    UnderIsSibling(pages, root, own, contents, p, i, b);
    BorrowLast(pages[a], pages[b], own[a], own[b], contents);
    LeafDeleteIsMapRemove(pages[a], key);
    LeafInsertIsMapUpdate(pages[b], key, rid);
    OwnedKeys(pages[b], own[b], contents, key);
    if pages[b].keys != [] { OwnedKeys(pages[b], own[b], contents, pages[b].keys[0]); }
  }

  lemma RightBorrowShape(n: Node, m: Node, s: Span, contents: map<Key, RID>)
    requires n.Leaf? && n.WellFormed() && LeafHolds(n, s, contents)
    requires m.Leaf? && m.WellFormed() && |m.keys| >= 2 && s.hi <= m.keys[0]
    ensures |LeafDelete(m, m.keys[0]).keys| == |m.keys| - 1 && LeafDelete(m, m.keys[0]).keys[0] == m.keys[1]
    ensures |LeafInsert(n, m.keys[0], m.rids[0]).keys| == |n.keys| + 1
  {
    FirstAtLeastHit(m.keys, 0);
    LeafInsertIsMapUpdate(n, m.keys[0], m.rids[0]);
    OwnedKeys(n, s, contents, m.keys[0]);
  }

  lemma RightBorrowMoves(pages: Pages, root: PageId, own: Spans, contents: map<Key, RID>, p: PageId, a: PageId,
                         b: PageId, key: Key, rid: RID)
    requires Settled(pages, root, own, contents) && UnderParent(pages, own, p, 0, a) && |pages[p].children| > 1
    requires b == pages[a].next
    requires b in pages && pages[b].Leaf? && |pages[b].keys| >= 2 && pages[a].Shaped() && pages[b].Shaped()
    requires key == pages[b].keys[0] && rid == pages[b].rids[0]
    ensures Moved(pages, own, contents, p, 1, LeafInsert(pages[a], key, rid), LeafDelete(pages[b], key),
                  pages[b].keys[1])
    ensures |LeafDelete(pages[b], key).keys| == |pages[b].keys| - 1
    ensures |LeafInsert(pages[a], key, rid).keys| == |pages[a].keys| + 1
    ensures LeafDelete(pages[b], key).keys[0] == pages[b].keys[1]
  {
    UnderIsSibling(pages, root, own, contents, p, 0, a);
    BorrowFirst(pages[a], pages[b], own[a], own[b], contents);
    LeafDeleteIsMapRemove(pages[b], key);
    LeafInsertIsMapUpdate(pages[a], key, rid);
    OwnedKeys(pages[b], own[b], contents, key);
    RightBorrowShape(pages[a], pages[b], own[a], contents);
  }

  lemma MergeMerges(pages: Pages, root: PageId, own: Spans, contents: map<Key, RID>, p: PageId, i: nat, a: PageId,
                    b: PageId)
    requires Settled(pages, root, own, contents) && UnderParent(pages, own, p, i, b) && i > 0
    requires a == pages[p].children[i - 1]
    requires a in pages && pages[a].Leaf? && pages[a].Shaped() && pages[b].Shaped()
    ensures Merged(pages, own, contents, p, i, Absorb(pages[a], pages[b]))
    ensures |Absorb(pages[a], pages[b]).keys| <= |pages[a].keys| + |pages[b].keys|
  {
    UnderIsSibling(pages, root, own, contents, p, i, b);
    MergeLeaves(pages[a], pages[b], own[a], own[b], contents);
    LeafFrame(InsertAll(pages[a], pages[b], |pages[b].keys|), Absorb(pages[a], pages[b]));
  }

  /** The parent drops its child i exactly when it is asked to delete the separator before it. */
  lemma SeparatorFound(n: Node, i: nat)
    requires n.Internal? && n.WellFormed() && 1 <= i < |n.children|
    ensures RouteDelete(n, n.keys[i - 1]) ==
      Internal(n.isRoot, n.parent, RemoveAt(n.keys, i - 1), RemoveAt(n.children, i))
  {
  }

  lemma SeparatorMissed(pages: Pages, root: PageId, own: Spans, contents: map<Key, RID>, p: PageId, i: nat, id: PageId,
                        k: Key)
    requires Settled(pages, root, own, contents) && UnderParent(pages, own, p, i, id) && own[id].lo < k < own[id].hi
    ensures RouteDelete(pages[p], k) == pages[p]
  {
    assert NodeHolds(pages, own, own, contents, p);
    assert ChildHolds(pages, own, p, own[p], i);
    forall j | 0 <= j < |pages[p].keys| ensures pages[p].keys[j] != k {
      if j < i { assert pages[p].keys[j] <= own[id].lo; } else { assert own[id].hi <= pages[p].keys[j]; }
    }
  }

  lemma ChildIndex(pages: Pages, root: PageId, own: Spans, contents: map<Key, RID>, p: PageId, i: nat)
    requires Settled(pages, root, own, contents)
    requires p in own && p in pages && pages[p].Internal? && i < |pages[p].children|
    ensures IndexOf(pages[p].children, pages[p].children[i]) == i
  {
    assert NodeHolds(pages, own, own, contents, p);
    var j := IndexOf(pages[p].children, pages[p].children[i]);
    if j < i { ChildrenDistinct(pages, own, p, own[p], j, i); }
  }

  lemma FirstSlotInSpan(n: Node, s: Span, contents: map<Key, RID>, deleted: Key)
    requires n.Leaf? && n.WellFormed() && LeafHolds(n, s, contents) && s.lo <= deleted < s.hi
    ensures s.lo <= FirstSlot(n, deleted) < s.hi
  {
    if n.keys != [] { OwnedKeys(n, s, contents, n.keys[0]); }
  }

  lemma NextLeafFacts(pages: Pages, root: PageId, own: Spans, contents: map<Key, RID>, id: PageId)
    requires Settled(pages, root, own, contents) && id in own && id in pages && pages[id].Leaf? && pages[id].next != 0
    ensures var next := pages[id].next;
      && next in own && next in pages && pages[next].Leaf? && pages[next].WellFormed()
      && own[next].lo == own[id].hi && LeafHolds(pages[next], own[next], contents)
  {
  }
}
