/** The B+ tree over node pages: lookup, and insertion with splits that climb to the root. */
module BPlusTrees {
  import opened Types
  import opened Sequences
  import opened Nodes
  import opened TreeInvariant
  import opened TreeRebalance
  import opened TreeDelete
  import opened TreeFill

  ghost predicate Capped(pages: Pages, own: Spans) {
    forall id :: id in own && id in pages ==> |pages[id].keys| <= MAX_ENTRIES
  }

  /** The least a page other than the root holds in a tree built by insertion. */
  ghost predicate FilledNode(n: Node) {
    |n.keys| >= if n.Leaf? then MIN_LEAF else MIN_LEAF - 1
  }

  ghost predicate Filled(pages: Pages, root: PageId, own: Spans) {
    && (forall id :: id in own && id in pages && id != root ==> FilledNode(pages[id]))
    && (root in pages && pages[root].Internal? ==> |pages[root].keys| >= 1)
  }

  /** Nodes go only to pages that the file has gained since it had from pages. */
  ghost predicate GainsPages(before: Pages, from: nat, after: Pages, numPages: nat) {
    from <= numPages && forall id :: id in after ==> id in before || from <= id
  }

  ghost predicate TreeHolds(pages: Pages, root: PageId, own: Spans, contents: map<Key, RID>, numPages: int) {
    && Settled(pages, root, own, contents)
    && Capped(pages, own)
    && (forall id :: id in pages ==> 0 < id < numPages) && 0 < numPages
  }

  ghost predicate SplitHolds(pages: Pages, root: PageId, own: Spans, contents: map<Key, RID>, numPages: int,
                             left: PageId, right: PageId) {
    && Pending(pages, root, own, contents, left, right)
    && Capped(pages, own)
    && (forall id :: id in pages ==> 0 < id < numPages) && 0 < numPages
  }

  lemma NewRootKeepsTree(pages: Pages, root: PageId, own: Spans, contents: map<Key, RID>, numPages: int, right: PageId)
    requires SplitHolds(pages, root, own, contents, numPages, root, right)
    ensures var pages' := NewRootPages(pages, root, own[right].lo, right, numPages);
      var own' := NewRootSpans(own, root, numPages);
      && TreeHolds(pages', numPages, own', contents, numPages + 1)
      && (Filled(pages, root, own) && root in pages && FilledNode(pages[root]) ==> Filled(pages', numPages, own'))
  {
    NewRootSettles(pages, root, own, contents, right, numPages);
  }

  /** Where the key goes when a full leaf splits. */
  function SplitLeafInsert(n: Node, k: Key, rid: RID, newID: PageId): (r: (Node, Node))
    requires n.Leaf? && n.Shaped() && |n.keys| >= 2
    ensures r.0.Leaf? && r.1.Leaf? && r.0.Shaped() && r.1.Shaped()
  {
    var (left, right) := LeafSplit(n, |n.keys| / 2, newID);
    if k < right.keys[0] then (LeafInsert(left, k, rid), right) else (left, LeafInsert(right, k, rid))
  }

  function SplitLeafPages(pages: Pages, id: PageId, k: Key, rid: RID, newID: PageId): Pages
    requires id in pages && pages[id].Leaf? && pages[id].Shaped() && |pages[id].keys| >= 2
  {
    var (left, right) := SplitLeafInsert(pages[id], k, rid, newID);
    pages[id := left][newID := right]
  }

  /** Where the separator and its page go when a full route splits. */
  function SplitRouteInsert(n: Node, k: Key, c: PageId): (r: (Node, Key, Node))
    requires n.Internal? && n.Shaped() && |n.keys| >= 2
    ensures r.0.Internal? && r.2.Internal? && r.0.Shaped() && r.2.Shaped()
  {
    var (left, key, right) := RouteSplit(n, |n.keys| / 2);
    if k < key then (RouteInsert(left, k, c), key, right) else (left, key, RouteInsert(right, k, c))
  }

  lemma PathFrame(pages: Pages, pages': Pages, root: PageId, own: Spans, own': Spans, path: seq<PageId>, cur: PageId)
    requires PathHolds(pages, root, own, path, cur)
    requires forall id :: id in own ==> id in own' && own'[id].height == own[id].height
    requires forall id :: id in pages && pages[id].Internal? && id in path ==>
               id in pages' && pages'[id].Internal? && pages'[id].children == pages[id].children
    ensures PathHolds(pages', root, own', path, cur)
  {
    forall i | 0 <= i < |path| ensures StepHolds(pages', own', path, cur, i) {
      assert StepHolds(pages, own, path, cur, i);
      var id := path[i];
      assert id in path && id in own;
    }
  }

  lemma SplitLeafSizes(n: Node, k: Key, rid: RID, newID: PageId)
    requires n.Leaf? && n.WellFormed() && |n.keys| == MAX_ENTRIES
    ensures MIN_LEAF <= |SplitLeafInsert(n, k, rid, newID).0.keys| <= MIN_LEAF + 1
    ensures MIN_LEAF <= |SplitLeafInsert(n, k, rid, newID).1.keys| <= MIN_LEAF + 1
  {
  }

  /** While a leaf split is in flight, an insertion goes to the half that owns the key. */
  lemma PendingLeafInsert(pages: Pages, root: PageId, own: Spans, contents: map<Key, RID>, left: PageId, right: PageId,
                          at: PageId, k: Key, rid: RID)
    requires Pending(pages, root, own, contents, left, right)
    requires at in own && at in pages && pages[at].Leaf? && pages[at].WellFormed()
    requires own[at].lo <= k < own[at].hi && k < TWO_TO_64
    ensures Pending(pages[at := LeafInsert(pages[at], k, rid)], root, own, contents[k := rid], left, right)
  {
    LeafInsertKeeps(pages, root, own, Joined(own, left, right), contents, at, k, rid);
  }

  lemma SplitLeafHalvesPend(pages: Pages, root: PageId, own: Spans, contents: map<Key, RID>, id: PageId, newID: PageId)
    requires Settled(pages, root, own, contents) && newID !in pages && newID != 0
    requires id in own && id in pages && pages[id].Leaf? && pages[id].WellFormed() && |pages[id].keys| == MAX_ENTRIES
    ensures Pending(pages[id := LeafSplit(pages[id], MIN_LEAF, newID).0]
                         [newID := LeafSplit(pages[id], MIN_LEAF, newID).1],
                    root, SplitSpans(own, id, pages[id].keys[MIN_LEAF], newID), contents, id, newID)
  {
    assert NodeHolds(pages, own, own, contents, id);
    LeafHalves(pages[id], own[id], contents, MIN_LEAF, newID);
    LeafSplitPends(pages, root, own, contents, id, LeafSplit(pages[id], MIN_LEAF, newID).0,
                   LeafSplit(pages[id], MIN_LEAF, newID).1,
                   pages[id].keys[MIN_LEAF], newID);
  }

  lemma SplitLeafPends(pages: Pages, root: PageId, own: Spans, contents: map<Key, RID>, id: PageId, k: Key, rid: RID,
                       newID: PageId)
    requires Settled(pages, root, own, contents) && newID !in pages && newID != 0
    requires id in own && id in pages && pages[id].Leaf? && pages[id].WellFormed() && |pages[id].keys| == MAX_ENTRIES
    requires own[id].lo <= k < own[id].hi && k < TWO_TO_64
    ensures Pending(SplitLeafPages(pages, id, k, rid, newID), root,
                    SplitSpans(own, id, pages[id].keys[MIN_LEAF], newID), contents[k := rid], id, newID)
  {
    var key := pages[id].keys[MIN_LEAF];
    SplitLeafHalvesPend(pages, root, own, contents, id, newID);
    var mid := pages[id := LeafSplit(pages[id], MIN_LEAF, newID).0][newID := LeafSplit(pages[id], MIN_LEAF, newID).1];
    var own' := SplitSpans(own, id, key, newID);
    var (l, r) := SplitLeafInsert(pages[id], k, rid, newID);
    Overwrite(pages, id, mid[id], l, newID, mid[newID], r);
    if k < key {
      PendingLeafInsert(mid, root, own', contents, id, newID, id, k, rid);
    } else {
      PendingLeafInsert(mid, root, own', contents, id, newID, newID, k, rid);
    }
  }

  lemma Overwrite<T>(m: map<PageId, T>, a: PageId, x: T, x': T, b: PageId, y: T, y': T)
    requires a != b
    ensures m[a := x][b := y][a := x'] == m[a := x'][b := y]
    ensures m[a := x][b := y][b := y'] == m[a := x][b := y']
  {
  }

  lemma SplitSizes(pages: Pages, root: PageId, own: Spans, own': Spans, numPages: int, id: PageId, l: Node, r: Node)
    requires Capped(pages, own) && own'.Keys == own.Keys + {numPages} && id in own && id in pages && root != numPages
    requires forall x :: x in pages ==> 0 < x < numPages
    requires |l.keys| <= MAX_ENTRIES && |r.keys| <= MAX_ENTRIES && FilledNode(l) && FilledNode(r)
    ensures var pages' := pages[id := l][numPages := r];
      && Capped(pages', own') && (forall x :: x in pages' ==> 0 < x < numPages + 1)
      && (Filled(pages, root, own) ==> Filled(pages', root, own') && FilledNode(pages'[id]))
  {
  }

  lemma LeafInsertKeepsTree(pages: Pages, root: PageId, own: Spans, contents: map<Key, RID>, numPages: int, id: PageId,
                            k: Key, rid: RID)
    requires TreeHolds(pages, root, own, contents, numPages)
    requires id in own && id in pages && pages[id].WellFormed() && pages[id].Leaf? && |pages[id].keys| < MAX_ENTRIES
    requires own[id].lo <= k < own[id].hi && k < TWO_TO_64
    ensures TreeHolds(pages[id := LeafInsert(pages[id], k, rid)], root, own, contents[k := rid], numPages)
    ensures Filled(pages, root, own) ==> Filled(pages[id := LeafInsert(pages[id], k, rid)], root, own)
  {
    LeafInsertKeeps(pages, root, own, own, contents, id, k, rid);
    LeafInsertIsMapUpdate(pages[id], k, rid);
    LeafInsertSizes(pages, root, own, id, LeafInsert(pages[id], k, rid));
  }

  lemma LeafInsertSizes(pages: Pages, root: PageId, own: Spans, id: PageId, n: Node)
    requires Capped(pages, own) && id in pages && pages[id].Leaf? && n.Leaf?
    requires |pages[id].keys| <= |n.keys| <= MAX_ENTRIES
    ensures Capped(pages[id := n], own)
    ensures Filled(pages, root, own) ==> Filled(pages[id := n], root, own)
  {
  }

  lemma SplitLeafKeepsTree(pages: Pages, root: PageId, own: Spans, contents: map<Key, RID>, numPages: int, id: PageId,
                           k: Key, rid: RID)
    requires TreeHolds(pages, root, own, contents, numPages)
    requires id in own && id in pages && pages[id].Leaf? && pages[id].WellFormed() && |pages[id].keys| == MAX_ENTRIES
    requires own[id].lo <= k < own[id].hi && k < TWO_TO_64
    ensures SplitHolds(SplitLeafPages(pages, id, k, rid, numPages),
                       root, SplitSpans(own, id, pages[id].keys[MIN_LEAF],
                                        numPages), contents[k := rid], numPages + 1, id, numPages)
  {
    SplitLeafPends(pages, root, own, contents, id, k, rid, numPages);
    SplitLeafSizes(pages[id], k, rid, numPages);
    SplitSizes(pages, root, own, SplitSpans(own, id, pages[id].keys[MIN_LEAF], numPages), numPages, id,
               SplitLeafInsert(pages[id], k, rid, numPages).0, SplitLeafInsert(pages[id], k, rid, numPages).1);
  }

  lemma SplitLeafKeepsFilled(pages: Pages, root: PageId, own: Spans, numPages: int, id: PageId, k: Key, rid: RID)
    requires Filled(pages, root, own) && Capped(pages, own) && root != numPages
    requires forall x :: x in pages ==> 0 < x < numPages
    requires id in own && id in pages && pages[id].Leaf? && pages[id].WellFormed() && |pages[id].keys| == MAX_ENTRIES
    ensures var pages' := SplitLeafPages(pages, id, k, rid, numPages);
      Filled(pages', root, SplitSpans(own, id, pages[id].keys[MIN_LEAF], numPages)) && FilledNode(pages'[id])
  {
  }

  lemma LinkKeepsTree(pages: Pages, root: PageId, own: Spans, contents: map<Key, RID>, numPages: int, left: PageId,
                      right: PageId, p: PageId)
    requires SplitHolds(pages, root, own, contents, numPages, left, right)
    requires p in own && p in pages && pages[p].Internal? && pages[p].WellFormed() && left in pages[p].children
    requires own[right].lo !in pages[p].keys && |pages[p].keys| < MAX_ENTRIES
    ensures var pages' := SetParents(pages, [right], p)[p := RouteInsert(pages[p], own[right].lo, right)];
      TreeHolds(pages', root, own, contents, numPages) && (Filled(pages, root, own) ==> Filled(pages', root, own))
  {
    LinkSettles(pages, root, own, contents, left, right, p);
    RouteInsertSize(pages[p], own[right].lo, right);
  }

  /** The page images after a full parent p has taken the separator k for page c and split. */
  function LinkSplitPages(pages: Pages, p: PageId, k: Key, c: PageId, newID: PageId): Pages
    requires p in pages && pages[p].Internal? && pages[p].Shaped() && |pages[p].keys| >= 2
  {
    var (left, key, right) := SplitRouteInsert(pages[p], k, c);
    SetParents(SetParents(pages, [c], p)[p := left][newID := right], right.children, newID)
  }

  lemma SplitRouteSizes(n: Node, k: Key, c: PageId)
    requires n.Internal? && n.Shaped() && |n.keys| == MAX_ENTRIES
    ensures MIN_LEAF <= |SplitRouteInsert(n, k, c).0.keys| <= MIN_LEAF + 1
    ensures MIN_LEAF - 1 <= |SplitRouteInsert(n, k, c).2.keys| <= MIN_LEAF
  {
  }

  lemma SplitRouteInsertIs(n: Node, k: Key, c: PageId)
    requires n.Internal? && n.WellFormed() && |n.keys| == MAX_ENTRIES && k !in n.keys
    ensures |RouteInsert(n, k, c).keys| == MAX_ENTRIES + 1
    ensures SplitRouteInsert(n, k, c) ==
      RouteSplit(RouteInsert(n, k, c), if k < n.keys[MIN_LEAF] then MIN_LEAF + 1 else MIN_LEAF)
  {
    RouteInsertSize(n, k, c);
    assert n.keys[MIN_LEAF] in n.keys;
    if k < n.keys[MIN_LEAF] {
      SplitThenInsertLeft(n, MIN_LEAF, k, c);
    } else {
      SplitThenInsertRight(n, MIN_LEAF, k, c);
    }
  }

  lemma SplitLinkedPends(linked: Pages, root: PageId, own: Spans, contents: map<Key, RID>, p: PageId, n: Node, k: Key,
                         c: PageId, newID: PageId)
    requires n.Internal? && n.WellFormed() && |n.keys| == MAX_ENTRIES && k !in n.keys
    requires Settled(linked[p := RouteInsert(n, k, c)], root, own, contents) && p in own
    requires p in linked && newID !in linked && newID != 0
    ensures var (left, key, right) := SplitRouteInsert(n, k, c);
      Pending(SetParents(linked[p := left][newID := right], right.children, newID), root,
              SplitSpans(own, p, key, newID), contents, p, newID)
  {
    SplitRouteInsertIs(n, k, c);
    RouteSplitPends(linked[p := RouteInsert(n, k, c)], root, own, contents, p,
                    if k < n.keys[MIN_LEAF] then MIN_LEAF + 1 else MIN_LEAF, newID);
    var left := SplitRouteInsert(n, k, c).0;
    assert linked[p := RouteInsert(n, k, c)][p := left] == linked[p := left];
  }

  lemma LinkSplitPends(pages: Pages, root: PageId, own: Spans, contents: map<Key, RID>, left: PageId, right: PageId,
                       p: PageId, newID: PageId)
    requires Pending(pages, root, own, contents, left, right) && newID !in pages && newID != 0
    requires p in own && p in pages && pages[p].Internal? && pages[p].WellFormed() && left in pages[p].children
    requires own[right].lo !in pages[p].keys && |pages[p].keys| == MAX_ENTRIES
    ensures Pending(LinkSplitPages(pages, p, own[right].lo, right, newID), root,
                    SplitSpans(own, p, SplitRouteInsert(pages[p], own[right].lo, right).1, newID), contents, p, newID)
  {
    LinkSettles(pages, root, own, contents, left, right, p);
    SplitLinkedPends(SetParents(pages, [right], p), root, own, contents, p, pages[p], own[right].lo, right, newID);
  }

  lemma LinkSplitKeepsSizes(pages: Pages, root: PageId, own: Spans, own': Spans, numPages: int, p: PageId, k: Key,
                            c: PageId)
    requires Capped(pages, own) && own'.Keys == own.Keys + {numPages} && p in own && p in pages && root != numPages
    requires forall x :: x in pages ==> 0 < x < numPages
    requires pages[p].Internal? && pages[p].Shaped() && |pages[p].keys| == MAX_ENTRIES
    ensures var pages' := LinkSplitPages(pages, p, k, c, numPages);
      && Capped(pages', own') && (forall x :: x in pages' ==> 0 < x < numPages + 1)
      && (Filled(pages, root, own) ==> Filled(pages', root, own') && FilledNode(pages'[p]))
  {
    SplitRouteSizes(pages[p], k, c);
    var (left, key, right) := SplitRouteInsert(pages[p], k, c);
    var linked := SetParents(pages, [c], p);
    SplitSizes(linked, root, own, own', numPages, p, left, right);
    SizesFrame(linked[p := left][numPages := right], root, own', right.children, numPages);
  }

  lemma SizesFrame(pages: Pages, root: PageId, own: Spans, ids: seq<PageId>, parent: PageId)
    ensures Capped(pages, own) ==> Capped(SetParents(pages, ids, parent), own)
    ensures Filled(pages, root, own) ==> Filled(SetParents(pages, ids, parent), root, own)
  {
  }

  lemma LinkSplitKeepsTree(pages: Pages, root: PageId, own: Spans, contents: map<Key, RID>, numPages: int,
                           left: PageId, right: PageId, p: PageId)
    requires SplitHolds(pages, root, own, contents, numPages, left, right)
    requires p in own && p in pages && pages[p].Internal? && pages[p].WellFormed() && left in pages[p].children
    requires own[right].lo !in pages[p].keys && |pages[p].keys| == MAX_ENTRIES
    ensures SplitHolds(LinkSplitPages(pages, p, own[right].lo, right, numPages), root,
                       SplitSpans(own, p, SplitRouteInsert(pages[p], own[right].lo, right).1,
                                  numPages), contents, numPages + 1, p, numPages)
  {
    LinkSplitPends(pages, root, own, contents, left, right, p, numPages);
    LinkSplitKeepsSizes(pages, root, own,
                        SplitSpans(own, p, SplitRouteInsert(pages[p], own[right].lo, right).1, numPages),
                        numPages, p, own[right].lo, right);
  }

  lemma SplitPagesLive(pages: Pages, root: PageId, own: Spans, contents: map<Key, RID>, numPages: int, left: PageId,
                       right: PageId)
    requires SplitHolds(pages, root, own, contents, numPages, left, right)
    ensures left in pages && right in pages && numPages !in pages
  {
  }

  /** The page p can take the separator of a split: it routes to left and does not know right. */
  ghost predicate ParentReady(pages: Pages, own: Spans, left: PageId, right: PageId, p: PageId) {
    && p in own && p in pages && pages[p].Internal? && pages[p].WellFormed() && |pages[p].keys| <= MAX_ENTRIES
    && left in pages[p].children && right in pages && right != p
    && right in own && own[right].lo !in pages[p].keys
    && forall c :: c in pages[p].children ==> c in pages
  }

  lemma ParentIsReady(pages: Pages, root: PageId, own: Spans, contents: map<Key, RID>, numPages: int,
                      path: seq<PageId>, left: PageId, right: PageId)
    requires SplitHolds(pages, root, own, contents, numPages, left, right)
    requires path != [] && PathHolds(pages, root, own, path, left)
    ensures ParentReady(pages, own, left, right, path[|path| - 1])
  {
    var p := path[|path| - 1];
    assert StepHolds(pages, own, path, left, |path| - 1);
    assert NodeHolds(pages, own, Joined(own, left, right), contents, p);
    ChildrenAreLive(pages, own, Joined(own, left, right), contents, p);
    GroundIsLeaf(pages, own, Joined(own, left, right), contents);
    var i := LinkPosition(pages, root, own, contents, left, right, p);
  }

  lemma LinkSplitKeepsPath(pages: Pages, root: PageId, own: Spans, path: seq<PageId>, left: PageId, k: Key, c: PageId,
                           newID: PageId)
    requires path != [] && PathHolds(pages, root, own, path, left) && newID !in pages && newID !in own
    requires var p := path[|path| - 1];
      p in pages && pages[p].Internal? && pages[p].Shaped() && |pages[p].keys| == MAX_ENTRIES
    ensures path[|path| - 1] in own
    ensures var p := path[|path| - 1];
      PathHolds(LinkSplitPages(pages, p, k, c, newID), root,
                SplitSpans(own, p, SplitRouteInsert(pages[p], k, c).1, newID),
                path[..|path| - 1], p)
  {
    var p := path[|path| - 1];
    assert StepHolds(pages, own, path, left, |path| - 1);
    var front := path[..|path| - 1];
    forall i | 0 <= i < |front| ensures StepHolds(pages, own, front, p, i) && front[i] != p {
      assert StepHolds(pages, own, path, left, i);
    }
    assert PathHolds(pages, root, own, front, p);
    var own' := SplitSpans(own, p, SplitRouteInsert(pages[p], k, c).1, newID);
    PathFrame(pages, LinkSplitPages(pages, p, k, c, newID), root, own, own', front, p);
  }

  lemma GainsOne(pages: Pages, numPages: nat, pages': Pages)
    requires pages'.Keys == pages.Keys + {numPages}
    ensures GainsPages(pages, numPages, pages', numPages + 1)
  {
    forall id | id in pages'
      ensures id in pages || numPages <= id
    {
      assert id in pages'.Keys;
    }
  }

  lemma LinkSplitKeepsAll(pages: Pages, root: PageId, own: Spans, contents: map<Key, RID>, numPages: int,
                          path: seq<PageId>, left: PageId, right: PageId)
    returns (pages': Pages, own': Spans)
    requires SplitHolds(pages, root, own, contents, numPages, left, right) && SplitFilled(pages, own, left, right)
    requires path != [] && PathHolds(pages, root, own, path, left)
    requires ParentReady(pages, own, left, right, path[|path| - 1]) && pages[path[|path| - 1]].IsFull()
    ensures numPages !in pages
    ensures var p := path[|path| - 1];
      && pages' == LinkSplitPages(pages, p, own[right].lo, right, numPages)
      && numPages in own' && own'[numPages].lo == SplitRouteInsert(pages[p], own[right].lo, right).1
    ensures SplitHolds(pages', root, own', contents, numPages + 1, path[|path| - 1], numPages)
    ensures SplitFilled(pages', own', path[|path| - 1], numPages)
    ensures pages'.Keys == pages.Keys + {numPages}
    ensures PathHolds(pages', root, own', path[..|path| - 1], path[|path| - 1])
    ensures Filled(pages, root, own) ==> Filled(pages', root, own') && FilledNode(pages'[path[|path| - 1]])
  {
    var p, k := path[|path| - 1], own[right].lo;
    pages' := LinkSplitPages(pages, p, k, right, numPages);
    own' := SplitSpans(own, p, SplitRouteInsert(pages[p], k, right).1, numPages);
    LinkSplitFills(pages, own, own', p, k, right, numPages);
    GroundIsLeaf(pages, own, Joined(own, left, right), contents);
    LinkSplitKeepsTree(pages, root, own, contents, numPages, left, right, p);
    LinkSplitKeepsPath(pages, root, own, path, left, k, right, numPages);
    LinkSplitKeepsSizes(pages, root, own, own', numPages, p, k, right);
  }

  lemma LinkSplitFills(pages: Pages, own: Spans, own': Spans, p: PageId, k: Key, c: PageId, newID: PageId)
    requires LeavesFilled(pages, own, {}) && own'.Keys == own.Keys + {newID} && newID !in pages
    requires p in own && p in pages && pages[p].Internal? && pages[p].Shaped() && |pages[p].keys| >= 2
    requires c in pages && LeafFilled(pages[c])
    ensures SplitFilled(LinkSplitPages(pages, p, k, c, newID), own', p, newID)
    ensures LinkSplitPages(pages, p, k, c, newID).Keys == pages.Keys + {newID}
  {
    var (left, key, right) := SplitRouteInsert(pages[p], k, c);
    SplitRouteMembers(pages[p], k, c);
    SplitRouteFills(pages, own, own', p, c, left, right, newID);
  }

  lemma SplitRouteMembers(n: Node, k: Key, c: PageId)
    requires n.Internal? && n.Shaped() && |n.keys| >= 2
    ensures var (left, _, right) := SplitRouteInsert(n, k, c);
      forall x :: x in left.children || x in right.children ==> x in n.children || x == c
  {
    var (left, key, right) := RouteSplit(n, |n.keys| / 2);
    InsertAtMembers(left.children, FirstAtLeast(left.keys, k) + 1, c);
    InsertAtMembers(right.children, FirstAtLeast(right.keys, k) + 1, c);
  }

  ghost predicate LeafReady(pages: Pages, own: Spans, contents: map<Key, RID>, id: PageId, k: Key) {
    && id in own && id in pages && pages[id].Leaf? && NodeHolds(pages, own, own, contents, id)
    && own[id].lo <= k < own[id].hi
  }

  lemma PathExtends(pages: Pages, root: PageId, own: Spans, path: seq<PageId>, id: PageId, c: PageId)
    requires PathHolds(pages, root, own, path, id) && id in pages && pages[id].Internal?
    requires c in pages[id].children && c in own && own[c].height == own[id].height - 1
    ensures PathHolds(pages, root, own, path + [id], c)
  {
    forall i | 0 <= i < |path| + 1 ensures StepHolds(pages, own, path + [id], c, i) {
      if i < |path| { assert StepHolds(pages, own, path, id, i); }
    }
  }

  lemma LeafOffPath(pages: Pages, root: PageId, own: Spans, path: seq<PageId>, id: PageId, newID: PageId)
    requires PathHolds(pages, root, own, path, id) && id in pages && pages[id].Leaf? && newID !in pages
    ensures id !in path && newID !in path
  {
    forall i | 0 <= i < |path| ensures path[i] != id && path[i] != newID {
      assert StepHolds(pages, own, path, id, i);
    }
  }

  lemma SplitLeafKeepsPath(pages: Pages, root: PageId, own: Spans, contents: map<Key, RID>, numPages: int,
                           path: seq<PageId>, id: PageId, k: Key, rid: RID)
    requires own.Keys <= pages.Keys && numPages !in pages && PathHolds(pages, root, own, path, id)
    requires LeafReady(pages, own, contents, id, k) && |pages[id].keys| == MAX_ENTRIES
    ensures PathHolds(SplitLeafPages(pages, id, k, rid, numPages),
                      root, SplitSpans(own, id, pages[id].keys[MIN_LEAF], numPages), path, id)
  {
    LeafOffPath(pages, root, own, path, id, numPages);
    PathFrame(pages, SplitLeafPages(pages, id, k, rid, numPages),
              root, own, SplitSpans(own, id, pages[id].keys[MIN_LEAF], numPages), path, id);
  }

  lemma SplitLeafKeepsAll(pages: Pages, root: PageId, own: Spans, contents: map<Key, RID>, numPages: int,
                          path: seq<PageId>, id: PageId, k: Key, rid: RID)
    requires TreeHolds(pages, root, own, contents, numPages) && PathHolds(pages, root, own, path, id)
    requires LeafReady(pages, own, contents, id, k) && pages[id].IsFull() && k < TWO_TO_64
    ensures |pages[id].keys| == MAX_ENTRIES && numPages !in pages
    ensures var pages' := SplitLeafPages(pages, id, k, rid, numPages);
      var own' := SplitSpans(own, id, pages[id].keys[MIN_LEAF], numPages);
      && SplitHolds(pages', root, own', contents[k := rid], numPages + 1, id, numPages)
      && PathHolds(pages', root, own', path, id)
      && (Filled(pages, root, own) ==> Filled(pages', root, own') && FilledNode(pages'[id]))
  {
    GroundIsLeaf(pages, own, own, contents);
    SplitLeafKeepsTree(pages, root, own, contents, numPages, id, k, rid);
    SplitLeafKeepsPath(pages, root, own, contents, numPages, path, id, k, rid);
    if Filled(pages, root, own) { SplitLeafKeepsFilled(pages, root, own, numPages, id, k, rid); }
  }

  lemma MovedKeepsTree(pages: Pages, root: PageId, own: Spans, contents: map<Key, RID>, numPages: int, p: PageId,
                       i: nat, na: Node, nb: Node, s: Key)
    requires TreeHolds(pages, root, own, contents, numPages)
    requires p in pages && pages[p].Internal? && pages[p].Shaped() && 1 <= i < |pages[p].children|
    requires Moved(pages, own, contents, p, i, na, nb, s) && |na.keys| <= MAX_ENTRIES && |nb.keys| <= MAX_ENTRIES
    ensures TreeHolds(MovedPages(pages, p, i, na, nb, s), root,
                      MovedSpans(own, pages[p].children[i - 1], pages[p].children[i], s), contents, numPages)
  {
    MovedSettles(pages, root, own, contents, p, i, na, nb, s);
  }

  lemma MergedKeepsTree(pages: Pages, root: PageId, own: Spans, contents: map<Key, RID>, numPages: int, p: PageId,
                        i: nat, na: Node)
    requires TreeHolds(pages, root, own, contents, numPages)
    requires p in pages && pages[p].Internal? && pages[p].Shaped() && 1 <= i < |pages[p].children|
    requires Merged(pages, own, contents, p, i, na) && |na.keys| <= MAX_ENTRIES
    ensures TreeHolds(MergedPages(pages, p, i, na), root,
                      MergedSpans(own, pages[p].children[i - 1], pages[p].children[i]), contents, numPages)
  {
    MergedSettles(pages, root, own, contents, p, i, na);
  }

  lemma RightBorrowFacts(pages: Pages, root: PageId, own: Spans, contents: map<Key, RID>, numPages: int, p: PageId,
                         a: PageId, b: PageId)
    requires TreeHolds(pages, root, own, contents, numPages) && UnderParent(pages, own, p, 0, a) && b == pages[a].next
    requires b in own && b in pages && pages[b].Leaf? && pages[b].WellFormed() && pages[a].Shaped()
    requires |pages[b].keys| > MIN_LEAF && |pages[a].keys| < MIN_LEAF && own[a].hi == own[b].lo
    ensures var na, nb := LeafInsert(pages[a], pages[b].keys[0], pages[b].rids[0]),
      LeafDelete(pages[b], pages[b].keys[0]);
      && nb.keys != [] && pages[b].keys[0] in na.keys && pages[b].keys[0] >= own[a].hi
      && a != b && p != a && p != b
      && (if |pages[p].keys| > 0 then
            && IndexOf(pages[p].children, b) == 1 && pages[p].children[1] == b && nb.keys[0] == pages[b].keys[1]
            && TreeHolds(MovedPages(pages, p, 1, na, nb, pages[b].keys[1]), root,
                         MovedSpans(own, a, b, pages[b].keys[1]), contents, numPages)
          else
            IndexOf(pages[p].children, b) == 1)
  {
    var key, rid := pages[b].keys[0], pages[b].rids[0];
    UnderIsSibling(pages, root, own, contents, p, 0, a);
    LeafDeleteIsMapRemove(pages[b], key);
    LeafInsertIsMapUpdate(pages[a], key, rid);
    assert key in Entries(LeafInsert(pages[a], key, rid));
    assert NodeHolds(pages, own, own, contents, b);
    OwnedKeys(pages[b], own[b], contents, key);
    GroundIsLeaf(pages, own, own, contents);
    if |pages[p].keys| > 0 {
      RightBorrowMoves(pages, root, own, contents, p, a, b, key, rid);
      MovedKeepsTree(pages, root, own, contents, numPages, p, 1, LeafInsert(pages[a], key, rid),
                     LeafDelete(pages[b], key), pages[b].keys[1]);
      ChildIndex(pages, root, own, contents, p, 1);
    }
  }

  /** What borrowing the first entry of the next leaf writes, and whether the outcome is a tree. */
  lemma RightBorrow(pages: Pages, root: PageId, own: Spans, contents: map<Key, RID>, numPages: int, p: PageId,
                    a: PageId, b: PageId)
    returns (pages': Pages, own': Spans)
    requires TreeHolds(pages, root, own, contents, numPages) && UnderParent(pages, own, p, 0, a) && b == pages[a].next
    requires b in own && b in pages && pages[b].Leaf? && pages[b].WellFormed() && pages[a].Shaped()
    requires |pages[b].keys| > MIN_LEAF && |pages[a].keys| < MIN_LEAF && own[a].hi == own[b].lo
    requires LeavesFilled(pages, own, {a}) && (pages[p].keys != [] ==> |pages[a].keys| == MIN_LEAF - 1)
    ensures var na, nb := LeafInsert(pages[a], pages[b].keys[0], pages[b].rids[0]),
      LeafDelete(pages[b], pages[b].keys[0]);
            pages' == if |pages[p].keys| > 0
              then MovedPages(pages, p, 1, na, nb, pages[b].keys[1]) else pages[a := na][b := nb]
    ensures |pages[p].keys| > 0 ==> TreeHolds(pages', root, own', contents, numPages) && LeavesFilled(pages', own', {})
    ensures |pages[p].keys| == 0 ==> NoTree(pages', root)
  {
    var key, rid := pages[b].keys[0], pages[b].rids[0];
    var na, nb := LeafInsert(pages[a], key, rid), LeafDelete(pages[b], key);
    RightBorrowFacts(pages, root, own, contents, numPages, p, a, b);
    if |pages[p].keys| > 0 {
      var s := pages[b].keys[1];
      pages', own' := MovedPages(pages, p, 1, na, nb, s), MovedSpans(own, a, b, s);
      RightBorrowMoves(pages, root, own, contents, p, a, b, key, rid);
      MovedFills(pages, own, own', p, 1, na, nb, s, {a});
    } else {
      pages', own' := pages[a := na][b := nb], own;
      StrayIsNoTree(pages, root, own, contents, a, na, b, nb, key);
    }
  }

  lemma StrayIsNoTree(pages: Pages, root: PageId, own: Spans, contents: map<Key, RID>, a: PageId, na: Node, b: PageId,
                      nb: Node, k: Key)
    requires Settled(pages, root, own, contents) && a in own && b in own && a in pages && b in pages && a != b
    requires pages[a].Leaf? && pages[b].Leaf? && na.Leaf? && nb.Leaf? && k in na.keys && k >= own[a].hi
    ensures NoTree(pages[a := na][b := nb], root)
  {
    var pages' := pages[a := na][b := nb];
    GroundIsLeaf(pages, own, own, contents);
    forall own': Spans, contents': map<Key, RID>
      ensures !Settled(pages', root, own', contents')
    {
      StrayKeyBreaks(pages, pages', root, own, own', contents, contents', a, k);
    }
  }

  /** No assignment of spans and contents makes the pages a tree. */
  ghost predicate NoTree(pages: Pages, root: PageId) {
    forall own: Spans, contents: map<Key, RID> :: !Settled(pages, root, own, contents)
  }

  lemma LeafDeleteKeepsTree(pages: Pages, root: PageId, own: Spans, contents: map<Key, RID>, numPages: int, id: PageId,
                            k: Key)
    requires TreeHolds(pages, root, own, contents, numPages) && LeafReady(pages, own, contents, id, k)
    ensures TreeHolds(pages[id := LeafDelete(pages[id], k)], root, own, contents - {k}, numPages)
  {
    LeafDeleteKeeps(pages, root, own, contents, id, k);
    LeafDeleteIsMapRemove(pages[id], k);
  }

  /** Deleting key from the leaf id, seen before the call: no underflow, or one that rebalances. */
  predicate KeepsTreeAt(pages: Pages, root: PageId, id: PageId, key: Key)
    requires id in pages && pages[id].Leaf? && pages[id].Shaped()
  {
    var n, p := LeafDelete(pages[id], key), pages[id].parent;
    || id == root
    || |n.keys| >= MIN_LEAF
    || (&& p in pages && p != id && pages[p].Internal? && pages[p].Shaped()
        && IndexOf(pages[p].children, id) < |pages[p].children|
        && Rebalances(pages[id := n], p, IndexOf(pages[p].children, id), id, key))
  }

  ghost predicate DeleteKeepsTree(pages: Pages, root: PageId, own: Spans, contents: map<Key, RID>, key: Key) {
    forall id :: LeafReady(pages, own, contents, id, key) ==> KeepsTreeAt(pages, root, id, key)
  }

  /** Only the leaf that owns key was written, by an insertion. */
  ghost predicate OnlyInserted(pages: Pages, pages': Pages, own: Spans, contents: map<Key, RID>, key: Key, rid: RID) {
    exists id :: LeafReady(pages, own, contents, id, key) && pages' == pages[id := LeafInsert(pages[id], key, rid)]
  }

  /** Only the leaf that owns key was written, by a deletion. */
  ghost predicate OnlyDeleted(pages: Pages, pages': Pages, own: Spans, contents: map<Key, RID>, key: Key) {
    exists id :: LeafReady(pages, own, contents, id, key) && pages' == pages[id := LeafDelete(pages[id], key)]
  }

  /** Deleting key leaves its leaf below the minimum, and the leaf is not the root. */
  ghost predicate Underflows(pages: Pages, root: PageId, own: Spans, contents: map<Key, RID>, key: Key) {
    exists id :: LeafReady(pages, own, contents, id, key) && id != root && |LeafDelete(pages[id], key).keys| < MIN_LEAF
  }

  /** The leaf that owns key has no room for another entry. */
  ghost predicate Overflows(pages: Pages, own: Spans, contents: map<Key, RID>, key: Key) {
    exists id :: LeafReady(pages, own, contents, id, key) && |pages[id].keys| >= MAX_ENTRIES
  }

  lemma OnlyLeafReady(pages: Pages, root: PageId, own: Spans, contents: map<Key, RID>, id: PageId, k: Key)
    requires Settled(pages, root, own, contents) && LeafReady(pages, own, contents, id, k)
    ensures forall x :: LeafReady(pages, own, contents, x, k) ==> x == id
  {
  }

  lemma LeafParent(pages: Pages, root: PageId, own: Spans, contents: map<Key, RID>, path: seq<PageId>, id: PageId)
    returns (i: nat)
    requires Settled(pages, root, own, contents) && PathHolds(pages, root, own, path, id)
    requires id in pages && pages[id].Leaf? && id != root
    ensures path != [] && pages[id].parent == path[|path| - 1]
    ensures UnderParent(pages, own, path[|path| - 1], i, id) && IndexOf(pages[path[|path| - 1]].children, id) == i
  {
    var p := path[|path| - 1];
    assert StepHolds(pages, own, path, id, |path| - 1);
    assert NodeHolds(pages, own, own, contents, p) && NodeHolds(pages, own, own, contents, id);
    ChildrenAreLive(pages, own, own, contents, p);
    i :| 0 <= i < |pages[p].children| && pages[p].children[i] == id;
    ChildIndex(pages, root, own, contents, p, i);
  }

  /** The leaf that owns key decides all three conditions. */
  lemma DecidedAt(pages: Pages, root: PageId, own: Spans, contents: map<Key, RID>, id: PageId, key: Key)
    requires Settled(pages, root, own, contents) && LeafReady(pages, own, contents, id, key)
    ensures DeleteKeepsTree(pages, root, own, contents, key) <==> KeepsTreeAt(pages, root, id, key)
    ensures Underflows(pages, root, own, contents, key) <==> id != root && |LeafDelete(pages[id], key).keys| < MIN_LEAF
    ensures Overflows(pages, own, contents, key) <==> |pages[id].keys| >= MAX_ENTRIES
  {
    OnlyLeafReady(pages, root, own, contents, id, key);
  }

  /** What the underflow step meets: the leaf under its parent, and the condition in terms of that parent. */
  lemma UnderflowFacts(pages: Pages, root: PageId, own: Spans, contents: map<Key, RID>, path: seq<PageId>, id: PageId,
                       key: Key)
    returns (i: nat)
    requires Settled(pages, root, own, contents) && LeavesFilled(pages, own, {})
    requires PathHolds(pages, root, own, path, id)
    requires LeafReady(pages, own, contents, id, key) && id != root && |LeafDelete(pages[id], key).keys| < MIN_LEAF
    requires |LeafDelete(pages[id], key).keys| == |pages[id].keys| - 1
    ensures path != []
    ensures var pages', p := pages[id := LeafDelete(pages[id], key)], path[|path| - 1];
      && UnderParent(pages', own, p, i, id)
      && (pages'[p].keys != [] ==> |pages'[id].keys| == MIN_LEAF - 1)
      && (KeepsTreeAt(pages, root, id, key) <==> Rebalances(pages', p, i, id, key))
  {
    i := LeafParent(pages, root, own, contents, path, id);
    var p := path[|path| - 1];
    if pages[p].keys != [] { SiblingsFilled(pages, own, p, {}); }
  }

  /** The leaf id, which owns key and is not the root, has lost key and is now below its minimum; pages0 and contents0
      are from before. */
  ghost predicate Underfull(pages0: Pages, contents0: map<Key, RID>, pages: Pages, contents: map<Key, RID>,
                            root: PageId, own: Spans,
                            numPages: int, path: seq<PageId>, id: PageId, key: Key) {
    && Settled(pages0, root, own, contents0) && LeavesFilled(pages0, own, {}) && PathHolds(pages0, root, own, path, id)
    && LeafReady(pages0, own, contents0, id, key) && id != root && pages == pages0[id := LeafDelete(pages0[id], key)]
    && TreeHolds(pages, root, own, contents, numPages) && LeavesFilled(pages, own, {id})
    && |pages[id].keys| == |pages0[id].keys| - 1 < MIN_LEAF
  }

  /** Taking a key out of the leaf that owns it: that is all there is to it when enough entries are left, or the leaf is
      the root; and keeps foretells the outcome. */
  lemma LeafShrinks(pages: Pages, root: PageId, own: Spans, contents: map<Key, RID>, numPages: int, path: seq<PageId>,
                    id: PageId, key: Key)
    returns (pages': Pages, enough: bool, keeps: bool)
    requires TreeHolds(pages, root, own, contents, numPages) && LeavesFilled(pages, own, {})
    requires PathHolds(pages, root, own, path, id)
    requires LeafReady(pages, own, contents, id, key) && key in contents
    ensures pages' == pages[id := LeafDelete(pages[id], key)]
    ensures enough <==> id == root || |pages'[id].keys| >= MIN_LEAF
    ensures enough <==> !Underflows(pages, root, own, contents, key)
    ensures keeps == DeleteKeepsTree(pages, root, own, contents, key) == KeepsTreeAt(pages, root, id, key)
    ensures enough ==>
      keeps && TreeHolds(pages', root, own, contents - {key}, numPages) && LeavesFilled(pages', own, {})
    ensures enough ==>
      OnlyDeleted(pages, pages', own, contents, key) && (Filled(pages, root, own) ==> Filled(pages', root, own))
    ensures !enough ==> Underfull(pages, contents, pages', contents - {key}, root, own, numPages, path, id, key)
  {
    var n := LeafDelete(pages[id], key);
    pages', enough, keeps := pages[id := n], id == root || |n.keys| >= MIN_LEAF, KeepsTreeAt(pages, root, id, key);
    DecidedAt(pages, root, own, contents, id, key);
    LeafDeleteKeepsTree(pages, root, own, contents, numPages, id, key);
    LeafDeleteShrinks(pages[id], own[id], contents, key);
    ShrunkLeafFills(pages, own, id, n);
    if enough { ShrunkLeafSizes(pages, root, own, id, n); }
    if id == root { RootNeedsNoSpare(pages', root, own, contents - {key}); }
  }

  lemma LeafDeleteShrinks(n: Node, s: Span, contents: map<Key, RID>, key: Key)
    requires n.Leaf? && n.WellFormed() && LeafHolds(n, s, contents) && s.lo <= key < s.hi && key in contents
    ensures |LeafDelete(n, key).keys| == |n.keys| - 1
  {
    LeafDeleteIsMapRemove(n, key);
    OwnedKeys(n, s, contents, key);
  }

  lemma ShrunkLeafSizes(pages: Pages, root: PageId, own: Spans, id: PageId, n: Node)
    requires id in pages && pages[id].Leaf? && n.Leaf? && (id == root || |n.keys| >= MIN_LEAF)
    ensures Filled(pages, root, own) ==> Filled(pages[id := n], root, own)
  {
  }

  class BPlusTree {
    var pages: Pages
    var rootPageID: PageId
    /** The root that the meta page names, by which the tree is opened again. */
    var metaRoot: PageId
    /** The size of the file, which other users of the file may let grow as well. */
    var numPages: nat
    var epoch: nat
    ghost var own: Spans
    ghost var contents: map<Key, RID>

    ghost predicate IsTree()
      reads this
    {
      TreeHolds(pages, rootPageID, own, contents, numPages) && metaRoot == rootPageID
    }

    /** The pages are a tree for contents, and only a leaf without siblings may be below its minimum. */
    ghost predicate Valid()
      reads this
    {
      IsTree() && LeavesFilled(pages, own, {})
    }

    ghost predicate MinFilled()
      reads this
    {
      Filled(pages, rootPageID, own)
    }

    /** firstFree is the size of the data file; its page 0 holds the metadata. */
    constructor (firstFree: nat)
      requires 0 < firstFree
      ensures Valid() && MinFilled() && contents == map[] && epoch == 0
      ensures pages.Keys == {firstFree} && numPages == firstFree + 1
    {
      pages := map[firstFree := Leaf(true, 0, 0, [], [])];
      rootPageID, metaRoot := firstFree, firstFree;
      numPages := firstFree + 1;
      epoch := 0;
      own := map[firstFree := Span(0, TWO_TO_64, 0)];
      contents := map[];
      new;
      assert Entries(pages[rootPageID]) == Slice(contents, 0, TWO_TO_64);
      assert NodeHolds(pages, own, own, contents, rootPageID);
      assert ChainHolds(pages, own, rootPageID);
    }

    /** Opens a tree in an existing file by the root its meta page names. */
    constructor Open(nodes: Pages, root: PageId, numPages: nat, ghost own: Spans, ghost contents: map<Key, RID>)
      requires TreeHolds(nodes, root, own, contents, numPages) && LeavesFilled(nodes, own, {})
      ensures Valid() && this.contents == contents && pages == nodes && this.numPages == numPages
    {
      pages, rootPageID, metaRoot, this.numPages, epoch := nodes, root, root, numPages, 0;
      this.own, this.contents := own, contents;
    }

    method NewPage() returns (id: PageId)
      modifies this`numPages
      ensures id == old(numPages) && numPages == old(numPages) + 1
    {
      id := numPages;
      numPages := numPages + 1;
    }

    method SetParent(childID: PageId, parentID: PageId)
      requires childID in pages
      modifies this`pages
      ensures pages == SetParents(old(pages), [childID], parentID)
    {
      pages := pages[childID := pages[childID].(parent := parentID, isRoot := false)];
    }

    method UpdateChildrenParent(children: seq<PageId>, parentID: PageId)
      requires forall c :: c in children ==> c in pages
      modifies this`pages
      ensures pages == SetParents(old(pages), children, parentID)
    {
      assert old(pages) == SetParents(old(pages), children[..0], parentID);
      for i := 0 to |children|
        invariant pages == SetParents(old(pages), children[..i], parentID)
      {
        SetParent(children[i], parentID);
        assert children[..i + 1] == children[..i] + [children[i]];
      }
      assert children[..|children|] == children;
    }

    method WriteLink(parentID: PageId, key: Key, childID: PageId)
      requires childID in pages && parentID in pages && childID != parentID
      requires pages[parentID].Internal? && pages[parentID].Shaped()
      modifies this`pages
      ensures pages ==
        SetParents(old(pages), [childID], parentID)[parentID := RouteInsert(old(pages)[parentID], key, childID)]
    {
      SetParent(childID, parentID);
      pages := pages[parentID := RouteInsert(pages[parentID], key, childID)];
    }

    /** Splits the full page parentID and gives one half the separator key for page childID; own' are the spans after
        that. */
    method WriteSplit(parentID: PageId, key: Key, childID: PageId, ghost own': Spans)
      returns (promotedKey: Key, newPageID: PageId)
      requires childID in pages && parentID in pages && childID != parentID && numPages !in pages
      requires pages[parentID].Internal? && pages[parentID].Shaped()
      requires |pages[parentID].keys| >= 2
      requires forall c :: c in pages[parentID].children ==> c in pages
      modifies this`pages, this`numPages, this`own
      ensures newPageID == old(numPages) && numPages == old(numPages) + 1 && own == own'
      ensures pages == LinkSplitPages(old(pages), parentID, key, childID, newPageID)
      ensures promotedKey == SplitRouteInsert(old(pages)[parentID], key, childID).1
    {
      var parent := pages[parentID];
      SetParent(childID, parentID);
      newPageID := NewPage();
      var halves := RouteSplit(parent, |parent.keys| / 2);
      var left, right := halves.0, halves.2;
      promotedKey := halves.1;
      if key < promotedKey {
        left := RouteInsert(left, key, childID);
      } else {
        right := RouteInsert(right, key, childID);
      }
      pages := pages[parentID := left][newPageID := right];
      UpdateChildrenParent(right.children, newPageID);
      own := own';
    }

    method WriteNewRoot(leftID: PageId, splitKey: Key, rightID: PageId)
      requires leftID in pages && rightID in pages && numPages !in pages
      modifies this`pages, this`rootPageID, this`metaRoot, this`numPages
      ensures rootPageID == metaRoot == old(numPages) && numPages == old(numPages) + 1
      ensures pages == NewRootPages(old(pages), leftID, splitKey, rightID, rootPageID)
    {
      var newRootID := NewPage();
      pages := pages[newRootID := Internal(true, 0, [splitKey], [leftID, rightID])];
      SetParent(leftID, newRootID);
      SetParent(rightID, newRootID);
      rootPageID := newRootID;
      metaRoot := newRootID;
    }

    method WriteLeafSplit(leafID: PageId, key: Key, rid: RID) returns (splitKey: Key, newPageID: PageId)
      requires leafID in pages && pages[leafID].Leaf? && pages[leafID].Shaped() && |pages[leafID].keys| >= 2
      requires numPages !in pages
      modifies this`pages, this`numPages
      ensures newPageID == old(numPages) && numPages == old(numPages) + 1
      ensures splitKey == old(pages)[leafID].keys[|old(pages)[leafID].keys| / 2]
      ensures pages == SplitLeafPages(old(pages), leafID, key, rid, newPageID)
    {
      newPageID := NewPage();
      var halves := LeafSplit(pages[leafID], |pages[leafID].keys| / 2, newPageID);
      var left, right := halves.0, halves.1;
      splitKey := right.keys[0];
      if key < splitKey {
        left := LeafInsert(left, key, rid);
      } else {
        right := LeafInsert(right, key, rid);
      }
      pages := pages[leafID := left][newPageID := right];
    }

    /** The state between a split and the link of its right page. */
    ghost predicate Splitting(left: PageId, right: PageId)
      reads this
    {
      && SplitHolds(pages, rootPageID, own, contents, numPages, left, right) && metaRoot == rootPageID
      && SplitFilled(pages, own, left, right)
    }

    /** Writes the new root, and notes it on the meta page. */
    method CreateNewRoot(leftID: PageId, splitKey: Key, rightID: PageId)
      requires Splitting(leftID, rightID) && leftID == rootPageID && splitKey == own[rightID].lo
      modifies this`pages, this`rootPageID, this`metaRoot, this`numPages, this`own
      ensures Valid()
      ensures old(MinFilled() && leftID in pages && FilledNode(pages[leftID])) ==> MinFilled()
      ensures GainsPages(old(pages), old(numPages), pages, numPages)
    {
      NewRootKeepsTree(pages, rootPageID, own, contents, numPages, rightID);
      SplitPagesLive(pages, rootPageID, own, contents, numPages, leftID, rightID);
      ghost var own' := NewRootSpans(own, rootPageID, numPages);
      NewRootFills(pages, own, own', leftID, splitKey, rightID, numPages);
      WriteNewRoot(leftID, splitKey, rightID);
      own := own';
    }

    method LinkIntoParent(parentID: PageId, key: Key, childID: PageId, ghost leftID: PageId)
      requires Splitting(leftID, childID) && key == own[childID].lo
      requires ParentReady(pages, own, leftID, childID, parentID) && !pages[parentID].IsFull()
      modifies this`pages
      ensures Valid()
      ensures old(MinFilled()) ==> MinFilled()
      ensures GainsPages(old(pages), old(numPages), pages, numPages)
    {
      LinkKeepsTree(pages, rootPageID, own, contents, numPages, leftID, childID, parentID);
      LinkFills(pages, own, leftID, childID, parentID, key);
      WriteLink(parentID, key, childID);
    }

    method SplitParent(path: seq<PageId>, key: Key, childID: PageId, ghost leftID: PageId)
      returns (promotedKey: Key, newPageID: PageId)
      requires path != [] && PathHolds(pages, rootPageID, own, path, leftID)
      requires Splitting(leftID, childID) && key == own[childID].lo
      requires ParentReady(pages, own, leftID, childID, path[|path| - 1]) && pages[path[|path| - 1]].IsFull()
      modifies this`pages, this`numPages, this`own
      ensures Splitting(path[|path| - 1], newPageID) && promotedKey == own[newPageID].lo
      ensures PathHolds(pages, rootPageID, own, path[..|path| - 1], path[|path| - 1])
      ensures GainsPages(old(pages), old(numPages), pages, numPages)
      ensures path[|path| - 1] in pages
      ensures old(MinFilled()) ==> MinFilled() && FilledNode(pages[path[|path| - 1]])
    {
      ghost var parentID := path[|path| - 1];
      ghost var pages', own' := LinkSplitKeepsAll(pages, rootPageID, own, contents, numPages, path, leftID, childID);
      GainsOne(pages, numPages, pages');
      promotedKey, newPageID := WriteSplit(path[|path| - 1], key, childID, own');
      assert pages == pages';
    }

    /** Links the page childID, split off leftID, into the last page of path; splits that
        page and climbs when it is full. Without a path, which only a root has, nothing happens. */
    method InsertIntoParent(path: seq<PageId>, key: Key, childID: PageId, ghost leftID: PageId)
      requires path != [] ==>
        PathHolds(pages, rootPageID, own, path, leftID) && Splitting(leftID, childID) && key == own[childID].lo
      modifies this`pages, this`rootPageID, this`metaRoot, this`numPages, this`own
      ensures path != [] ==> Valid()
      ensures path == [] ==> unchanged(this)
      ensures old(MinFilled()) ==> MinFilled()
      ensures GainsPages(old(pages), old(numPages), pages, numPages)
      decreases |path|
    {
      if path == [] {
        return;
      }
      var parentID := path[|path| - 1];
      ParentIsReady(pages, rootPageID, own, contents, numPages, path, leftID, childID);
      if !pages[parentID].IsFull() {
        LinkIntoParent(parentID, key, childID, leftID);
      } else {
        var promotedKey, newPageID := SplitParent(path, key, childID, leftID);
        if parentID == rootPageID {
          CreateNewRoot(parentID, promotedKey, newPageID);
        } else {
          InsertIntoParent(path[..|path| - 1], promotedKey, newPageID, parentID);
        }
      }
    }

    method SplitLeaf(path: seq<PageId>, leafID: PageId, key: uint64, rid: RID)
      returns (splitKey: Key, newPageID: PageId)
      requires Valid() && PathHolds(pages, rootPageID, own, path, leafID)
      requires LeafReady(pages, own, contents, leafID, key)
      requires pages[leafID].IsFull()
      modifies this`pages, this`numPages, this`own, this`contents
      ensures contents == old(contents)[key := rid]
      ensures Splitting(leafID, newPageID) && splitKey == own[newPageID].lo
      ensures PathHolds(pages, rootPageID, own, path, leafID)
      ensures old(MinFilled()) ==> MinFilled() && leafID in pages && FilledNode(pages[leafID])
      ensures GainsPages(old(pages), old(numPages), pages, numPages)
    {
      SplitLeafKeepsAll(pages, rootPageID, own, contents, numPages, path, leafID, key, rid);
      ghost var own' := SplitSpans(own, leafID, pages[leafID].keys[MIN_LEAF], numPages);
      SplitLeafSizes(pages[leafID], key, rid, numPages);
      SplitLeafFills(pages, own, own', leafID, SplitLeafInsert(pages[leafID], key, rid, numPages).0,
                     SplitLeafInsert(pages[leafID], key, rid, numPages).1, numPages);
      splitKey, newPageID := WriteLeafSplit(leafID, key, rid);
      own, contents := own', contents[key := rid];
    }

    method SplitLeafAndInsert(path: seq<PageId>, leafID: PageId, key: uint64, rid: RID)
      requires Valid() && PathHolds(pages, rootPageID, own, path, leafID)
      requires LeafReady(pages, own, contents, leafID, key)
      requires pages[leafID].IsFull()
      modifies this`pages, this`rootPageID, this`metaRoot, this`numPages, this`own, this`contents
      ensures Valid() && contents == old(contents)[key := rid]
      ensures old(MinFilled()) ==> MinFilled()
      ensures GainsPages(old(pages), old(numPages), pages, numPages)
    {
      var splitKey, newPageID := SplitLeaf(path, leafID, key, rid);
      if leafID == rootPageID {
        CreateNewRoot(leafID, splitKey, newPageID);
      } else {
        InsertIntoParent(path, splitKey, newPageID, leafID);
      }
    }

    /** Walks from the root to the leaf that owns key, recording the routes passed. */
    method Descend(key: uint64) returns (path: seq<PageId>, id: PageId)
      requires Valid()
      ensures PathHolds(pages, rootPageID, own, path, id) && LeafReady(pages, own, contents, id, key)
      ensures |path| == own[rootPageID].height
    {
      path := [];
      id := rootPageID;
      assert NodeHolds(pages, own, own, contents, id);
      while pages[id].Internal?
        invariant id in own && NodeHolds(pages, own, own, contents, id)
        invariant own[id].lo <= key < own[id].hi
        invariant PathHolds(pages, rootPageID, own, path, id) && |path| + own[id].height == own[rootPageID].height
        decreases own[id].height
      {
        RouteSpan(pages, rootPageID, own, contents, id, key);
        PathExtends(pages, rootPageID, own, path, id, Route(pages[id], key));
        path := path + [id];
        id := Route(pages[id], key);
        assert NodeHolds(pages, own, own, contents, id);
      }
    }

    method Find(key: uint64) returns (r: Option<RID>)
      requires Valid()
      ensures r == if key in contents then Some(contents[key]) else None
    {
      var path, id := Descend(key);
      r := LeafLookup(pages[id], key);
      LookupIsEntries(pages[id], key);
      assert key in Slice(contents, own[id].lo, own[id].hi) <==> key in contents;
    }

    /** Inserts into a leaf with room. */
    method GrowLeaf(id: PageId, key: uint64, rid: RID)
      requires Valid() && LeafReady(pages, own, contents, id, key) && !pages[id].IsFull()
      modifies this`pages, this`contents
      ensures Valid() && contents == old(contents)[key := rid] && pages.Keys == old(pages.Keys)
      ensures pages == old(pages)[id := LeafInsert(old(pages)[id], key, rid)]
      ensures old(MinFilled()) ==> MinFilled()
    {
      LeafInsertKeepsTree(pages, rootPageID, own, contents, numPages, id, key, rid);
      LeafInsertIsMapUpdate(pages[id], key, rid);
      GrownLeafFills(pages, own, id, LeafInsert(pages[id], key, rid));
      pages := pages[id := LeafInsert(pages[id], key, rid)];
      contents := contents[key := rid];
    }

    /** Insert adds or replaces one entry of the map; the epoch moves exactly when the leaf that owns the key is full
        and has to be split. */
    method Insert(key: uint64, rid: RID)
      requires Valid()
      modifies this
      ensures Valid() && contents == old(contents)[key := rid]
      ensures old(MinFilled()) ==> MinFilled()
      ensures GainsPages(old(pages), old(numPages), pages, numPages)
      ensures epoch == old(epoch) + if old(Overflows(pages, own, contents, key)) then 1 else 0
      ensures epoch == old(epoch) ==> own == old(own) && rootPageID == old(rootPageID) && numPages == old(numPages)
      ensures epoch == old(epoch) ==> OnlyInserted(old(pages), pages, own, old(contents), key, rid)
    {
      var path, id := Descend(key);
      DecidedAt(pages, rootPageID, own, contents, id, key);
      if !pages[id].IsFull() {
        GrowLeaf(id, key, rid);
      } else {
        epoch := epoch + 1;
        SplitLeafAndInsert(path, id, key, rid);
      }
    }

    // ---------- deletion ----------

    /** The child just before leafID under the parent, or 0 when there is none. */
    method LeftSiblingID(parent: Node, leafID: PageId) returns (id: PageId)
      requires parent.Internal? && parent.Shaped()
      ensures var i := IndexOf(parent.children, leafID);
        id == if 0 < i < |parent.children| then parent.children[i - 1] else 0
    {
      if parent.children[0] == leafID {
        return 0;
      }
      for i := 1 to |parent.children|
        invariant forall t :: 0 <= t < i ==> parent.children[t] != leafID
      {
        if parent.children[i] == leafID {
          return parent.children[i - 1];
        }
      }
      return 0;
    }

    /** Sets the separator before childID, if there is one: the first child has none. */
    method UpdateParentKey(parentID: PageId, childID: PageId, newKey: Key)
      requires parentID in pages && pages[parentID].Internal? && pages[parentID].Shaped()
      modifies this`pages
      ensures var n := old(pages)[parentID];
        var i := IndexOf(n.children[1..], childID);
        pages == if i < |n.keys|
          then old(pages)[parentID := Internal(n.isRoot, n.parent, n.keys[i := newKey], n.children)]
                 else old(pages)
    {
      var n := pages[parentID];
      for i := 0 to |n.keys|
        invariant forall t :: 0 <= t < i ==> n.children[1..][t] != childID
        invariant pages == old(pages)
      {
        if n.children[i + 1] == childID {
          assert n.children[1..][i] == childID;
          pages := pages[parentID := Internal(n.isRoot, n.parent, n.keys[i := newKey], n.children)];
          return;
        }
      }
    }

    /** Stores the two leaves of a borrow, and the first key of the right one as separator
        if the right one hangs under this parent. */
    method WriteMove(parentID: PageId, leftID: PageId, rightID: PageId, left: Node, right: Node)
      requires parentID in pages && pages[parentID].Internal? && pages[parentID].Shaped() && parentID != leftID
      requires parentID != rightID
      requires rightID != pages[parentID].children[0] && right.keys != []
      modifies this`pages
      ensures pages.Keys == old(pages.Keys) + {leftID, rightID}
      ensures var i := IndexOf(old(pages)[parentID].children, rightID);
        if i == |old(pages)[parentID].children| then pages == old(pages)[leftID := left][rightID := right]
        else i > 0 && (old(pages)[parentID].children[i - 1] == leftID ==>
                         pages == MovedPages(old(pages), parentID, i, left, right, right.keys[0]))
    {
      pages := pages[leftID := left][rightID := right];
      UpdateParentKey(parentID, rightID, right.keys[0]);
    }

    /** Inserts every entry of the right leaf into the left one, bypasses the right one in the
        chain, and asks the parent to delete the separator first. */
    method WriteMerge(parentID: PageId, leftID: PageId, rightID: PageId, first: Key)
      requires parentID in pages && pages[parentID].Internal? && pages[parentID].Shaped() && parentID != leftID
      requires leftID in pages && pages[leftID].Leaf? && pages[leftID].Shaped()
      requires rightID in pages && pages[rightID].Leaf? && pages[rightID].Shaped()
      modifies this`pages
      ensures pages == old(pages)[leftID := Absorb(old(pages)[leftID], old(pages)[rightID])]
                                 [parentID := RouteDelete(old(pages)[parentID], first)]
    {
      var left, right := pages[leftID], pages[rightID];
      for j := 0 to |right.keys|
        invariant left.Leaf? && left == InsertAll(old(pages)[leftID], right, j)
        invariant pages == old(pages)
      {
        left := LeafInsert(left, right.keys[j], right.rids[j]);
      }
      pages := pages[leftID := Leaf(left.isRoot, left.parent, right.next, left.keys, left.rids)];
      pages := pages[parentID := RouteDelete(pages[parentID], first)];
    }

    /** No assignment of spans and contents makes the pages a tree again. */
    ghost predicate Broken()
      reads this
    {
      NoTree(pages, rootPageID)
    }

    method BorrowFromLeft(parentID: PageId, leftID: PageId, leafID: PageId, ghost i: nat)
      requires IsTree() && UnderParent(pages, own, parentID, i, leafID) && i > 0
      requires leftID == pages[parentID].children[i - 1]
      requires leftID in pages && pages[leftID].Leaf? && |pages[leftID].keys| > MIN_LEAF
      requires |pages[leafID].keys| == MIN_LEAF - 1
      requires LeavesFilled(pages, own, {leafID})
      modifies this`pages, this`own
      ensures pages.Keys == old(pages.Keys)
      ensures Valid()
    {
      UnderIsSibling(pages, rootPageID, own, contents, parentID, i, leafID);
      var left, leaf := pages[leftID], pages[leafID];
      var key, rid := left.keys[|left.keys| - 1], left.rids[|left.keys| - 1];
      LeftBorrowMoves(pages, rootPageID, own, contents, parentID, i, leftID, leafID, key, rid);
      MovedKeepsTree(pages, rootPageID, own, contents, numPages, parentID, i, LeafDelete(left, key),
                     LeafInsert(leaf, key, rid), key);
      ChildIndex(pages, rootPageID, own, contents, parentID, i);
      ghost var own' := MovedSpans(own, leftID, leafID, key);
      MovedFills(pages, own, own', parentID, i, LeafDelete(left, key), LeafInsert(leaf, key, rid), key, {leafID});
      WriteMove(parentID, leftID, leafID, LeafDelete(left, key), LeafInsert(leaf, key, rid));
      own := own';
    }

    method BorrowFromRight(parentID: PageId, leafID: PageId, rightID: PageId)
      requires IsTree() && UnderParent(pages, own, parentID, 0, leafID) && rightID == pages[leafID].next
      requires rightID in own && rightID in pages && pages[rightID].Leaf? && pages[rightID].WellFormed()
      requires pages[leafID].Shaped()
      requires |pages[rightID].keys| > MIN_LEAF && |pages[leafID].keys| < MIN_LEAF && own[leafID].hi == own[rightID].lo
      requires LeavesFilled(pages, own, {leafID})
      requires pages[parentID].keys != [] ==> |pages[leafID].keys| == MIN_LEAF - 1
      modifies this`pages, this`own
      ensures pages.Keys == old(pages.Keys)
      ensures |old(pages)[parentID].keys| > 0 ==> Valid()
      ensures |old(pages)[parentID].keys| == 0 ==>
        && Broken()
        && pages == old(pages[leafID := LeafInsert(pages[leafID], pages[rightID].keys[0], pages[rightID].rids[0])]
                                      [rightID := LeafDelete(pages[rightID], pages[rightID].keys[0])])
    {
      var leaf, right := pages[leafID], pages[rightID];
      var key, rid := right.keys[0], right.rids[0];
      ghost var pages', own' := RightBorrow(pages, rootPageID, own, contents, numPages, parentID, leafID, rightID);
      RightBorrowFacts(pages, rootPageID, own, contents, numPages, parentID, leafID, rightID);
      WriteMove(parentID, leafID, rightID, LeafInsert(leaf, key, rid), LeafDelete(right, key));
      assert pages == pages';
      own := own';
    }

    /** Merging two neighbours under one parent keeps the tree exactly when first is their separator. */
    method MergeNeighbours(parentID: PageId, leftID: PageId, rightID: PageId, first: Key, ghost i: nat,
                           ghost spare: set<PageId>)
      requires IsTree() && UnderParent(pages, own, parentID, i, rightID) && i > 0
      requires leftID == pages[parentID].children[i - 1]
      requires leftID in pages && pages[leftID].Leaf?
      requires MIN_LEAF <= |pages[leftID].keys| + |pages[rightID].keys| <= MAX_ENTRIES
      requires LeavesFilled(pages, own, spare) && spare <= {leftID, rightID}
      requires own[rightID].lo <= first < own[rightID].hi
      modifies this`pages, this`own
      ensures pages.Keys == old(pages.Keys)
      ensures first == old(pages)[parentID].keys[i - 1] ==> Valid()
      ensures first != old(pages)[parentID].keys[i - 1] ==>
        Broken() && old(pages)[leftID].Shaped() && old(pages)[rightID].Shaped()
        && pages == old(pages)[leftID := Absorb(old(pages)[leftID], old(pages)[rightID])]
    {
      UnderIsSibling(pages, rootPageID, own, contents, parentID, i, rightID);
      MergeMerges(pages, rootPageID, own, contents, parentID, i, leftID, rightID);
      MergeFills(parentID, leftID, rightID, i, spare);
      ghost var pages0, separator := pages, pages[parentID].keys[i - 1];
      WriteMerge(parentID, leftID, rightID, first);
      if first == separator {
        MergedKeepsTree(pages0, rootPageID, own, contents, numPages, parentID, i,
                        Absorb(pages0[leftID], pages0[rightID]));
        SeparatorFound(pages0[parentID], i);
        own := MergedSpans(own, leftID, rightID);
      } else {
        SeparatorMissed(pages0, rootPageID, own, contents, parentID, i, rightID, first);
        BypassIsBroken(pages0, pages, parentID, leftID, rightID);
      }
    }

    lemma MergeFills(parentID: PageId, leftID: PageId, rightID: PageId, i: nat, spare: set<PageId>)
      requires IsTree() && UnderParent(pages, own, parentID, i, rightID) && i > 0
      requires leftID == pages[parentID].children[i - 1]
      requires leftID in pages && pages[leftID].Leaf? && pages[leftID].Shaped() && pages[rightID].Shaped()
      requires MIN_LEAF <= |pages[leftID].keys| + |pages[rightID].keys|
      requires LeavesFilled(pages, own, spare) && spare <= {leftID, rightID}
      ensures leftID in own
      ensures LeavesFilled(MergedPages(pages, parentID, i, Absorb(pages[leftID], pages[rightID])),
                           MergedSpans(own, leftID, rightID), {})
    {
      UnderIsSibling(pages, rootPageID, own, contents, parentID, i, rightID);
      MergeMerges(pages, rootPageID, own, contents, parentID, i, leftID, rightID);
      MergedCount(pages[leftID], pages[rightID], Absorb(pages[leftID], pages[rightID]), own[leftID], own[rightID],
                  contents);
      forall q | q in own && q in pages && pages[q].Internal? && q != parentID
        ensures rightID !in pages[q].children
      {
        OnlyChildOf(pages, own, contents, parentID, rightID, q);
      }
      forall j | 0 <= j < |pages[parentID].children| && j != i
        ensures pages[parentID].children[j] != rightID
      {
        ChildIndex(pages, rootPageID, own, contents, parentID, i);
        ChildIndex(pages, rootPageID, own, contents, parentID, j);
      }
      MergedFills(pages, own, MergedSpans(own, leftID, rightID), parentID, i, Absorb(pages[leftID], pages[rightID]),
                  spare);
    }

    lemma BypassIsBroken(pages0: Pages, pages1: Pages, parentID: PageId, leftID: PageId, rightID: PageId)
      requires Settled(pages0, rootPageID, own, contents)
      requires leftID in own && rightID in own && leftID in pages0 && rightID in pages0 && pages0[leftID].Leaf?
      requires pages0[rightID].Leaf?
      requires own[leftID].hi == own[rightID].lo && parentID in pages0 && parentID != leftID
      requires pages0[leftID].Shaped() && pages0[rightID].Shaped()
      requires pages1 == pages0[leftID := Absorb(pages0[leftID], pages0[rightID])][parentID := pages0[parentID]]
      ensures forall own': Spans, contents': map<Key, RID> :: !Settled(pages1, rootPageID, own', contents')
    {
      GroundIsLeaf(pages0, own, own, contents);
      forall own': Spans, contents': map<Key, RID> ensures !Settled(pages1, rootPageID, own', contents') {
        BypassBreaks(pages0, pages1, rootPageID, own, own', contents, contents', leftID, rightID);
      }
    }

    /** The only leaf under its parent takes over the next leaf of the chain, which another parent keeps. */
    method MergeAcrossParents(parentID: PageId, leafID: PageId, rightID: PageId, first: Key)
      requires IsTree() && UnderParent(pages, own, parentID, 0, leafID) && rightID == pages[leafID].next
      requires |pages[parentID].keys| == 0
      requires rightID in own && rightID in pages && pages[rightID].Leaf? && own[leafID].hi == own[rightID].lo
      requires pages[leafID].Shaped() && pages[rightID].Shaped()
      modifies this`pages
      ensures pages.Keys == old(pages.Keys)
      ensures Broken()
    {
      ghost var pages0 := pages;
      assert parentID != leafID;
      WriteMerge(parentID, leafID, rightID, first);
      assert RouteDelete(pages0[parentID], first) == pages0[parentID];
      BypassIsBroken(pages0, pages, parentID, leafID, rightID);
    }

    /** The leaf has fallen below its minimum: borrow from or merge with a sibling, left one first. */
    method HandleLeafUnderflow(parentID: PageId, leafID: PageId, deleted: Key, ghost i: nat)
      requires IsTree() && UnderParent(pages, own, parentID, i, leafID) && LeavesFilled(pages, own, {leafID})
      requires |pages[leafID].keys| < MIN_LEAF && own[leafID].lo <= deleted < own[leafID].hi
      requires pages[parentID].keys != [] ==> |pages[leafID].keys| == MIN_LEAF - 1
      modifies this`pages, this`own
      ensures pages.Keys == old(pages.Keys)
      ensures old(Rebalances(pages, parentID, i, leafID, deleted)) ==> Valid()
      ensures !old(Rebalances(pages, parentID, i, leafID, deleted)) ==> Broken()
    {
      UnderIsSibling(pages, rootPageID, own, contents, parentID, i, leafID);
      ChildIndex(pages, rootPageID, own, contents, parentID, i);
      if pages[parentID].keys != [] {
        SiblingsFilled(pages, own, parentID, {leafID});
      } else {
        SpareNotNeeded(pages, rootPageID, own, contents, parentID, i, leafID);
      }
      var leftID := LeftSiblingID(pages[parentID], leafID);
      if leftID != 0 {
        if |pages[leftID].keys| > MIN_LEAF {
          BorrowFromLeft(parentID, leftID, leafID, i);
        } else {
          var leaf := pages[leafID];
          FirstSlotInSpan(pages[leafID], own[leafID], contents, deleted);
          MergeNeighbours(parentID, leftID, leafID, FirstSlot(leaf, deleted), i, {leafID});
        }
        return;
      }
      var rightID := pages[leafID].next;
      if rightID != 0 {
        NextLeafFacts(pages, rootPageID, own, contents, leafID);
        if |pages[rightID].keys| > MIN_LEAF {
          BorrowFromRight(parentID, leafID, rightID);
        } else {
          var leftover: Key := *;
          var first := FirstSlot(pages[rightID], leftover);
          MergeFromRight(parentID, leafID, rightID, first);
        }
      }
    }

    /** The right sibling has entries when it hangs under the same parent; under another one it may be empty, and
        whatever its first slot still holds is searched for in vain. */
    method MergeFromRight(parentID: PageId, leafID: PageId, rightID: PageId, first: Key)
      requires IsTree() && UnderParent(pages, own, parentID, 0, leafID) && rightID == pages[leafID].next
      requires rightID in own && rightID in pages && pages[rightID].Leaf? && pages[rightID].WellFormed()
      requires own[leafID].hi == own[rightID].lo && LeafHolds(pages[rightID], own[rightID], contents)
      requires pages[leafID].Shaped() && |pages[leafID].keys| < MIN_LEAF && |pages[rightID].keys| <= MIN_LEAF
      requires LeavesFilled(pages, own, {leafID})
      requires pages[parentID].keys != [] ==> |pages[rightID].keys| == MIN_LEAF && first == pages[rightID].keys[0]
      modifies this`pages, this`own
      ensures pages.Keys == old(pages.Keys)
      ensures |old(pages)[parentID].keys| == 0 ==> Broken()
      ensures |old(pages)[parentID].keys| > 0 && first == old(pages)[parentID].keys[0] ==> Valid()
      ensures |old(pages)[parentID].keys| > 0 && first != old(pages)[parentID].keys[0] ==> Broken()
    {
      if |pages[parentID].keys| == 0 {
        MergeAcrossParents(parentID, leafID, rightID, first);
      } else {
        OwnedKeys(pages[rightID], own[rightID], contents, first);
        UnderIsSibling(pages, rootPageID, own, contents, parentID, 0, leafID);
        MergeNeighbours(parentID, leafID, rightID, first, 1, {leafID});
      }
    }

    /** The leaf that owns key, the routes above it, and whether it holds key. */
    method Locate(key: uint64) returns (path: seq<PageId>, id: PageId, found: bool)
      requires Valid()
      ensures PathHolds(pages, rootPageID, own, path, id) && LeafReady(pages, own, contents, id, key)
      ensures found <==> key in contents
    {
      path, id := Descend(key);
      LookupIsEntries(pages[id], key);
      assert key in Slice(contents, own[id].lo, own[id].hi) <==> key in contents;
      found := LeafLookup(pages[id], key).Some?;
    }

    /** The leaf keeps enough entries, or is the root. */
    method ShrinkLeaf(path: seq<PageId>, id: PageId, key: uint64)
      requires Valid() && PathHolds(pages, rootPageID, own, path, id) && LeafReady(pages, own, contents, id, key)
      requires key in contents
      requires id == rootPageID || |LeafDelete(pages[id], key).keys| >= MIN_LEAF
      modifies this`pages, this`contents
      ensures pages.Keys == old(pages.Keys)
      ensures Valid() && contents == old(contents) - {key} && OnlyDeleted(old(pages), pages, own, old(contents), key)
      ensures old(MinFilled()) ==> MinFilled()
    {
      ghost var pages', _, _ := LeafShrinks(pages, rootPageID, own, contents, numPages, path, id, key);
      pages := pages[id := LeafDelete(pages[id], key)];
      contents := contents - {key};
      assert pages == pages';
    }

    /** The leaf falls below its minimum, and is rebalanced. */
    method ShrinkAndRebalance(path: seq<PageId>, id: PageId, key: uint64)
      requires Valid() && PathHolds(pages, rootPageID, own, path, id) && LeafReady(pages, own, contents, id, key)
      requires key in contents
      requires id != rootPageID && |LeafDelete(pages[id], key).keys| < MIN_LEAF
      modifies this`pages, this`contents, this`own
      ensures pages.Keys == old(pages.Keys)
      ensures contents == old(contents) - {key}
      ensures old(KeepsTreeAt(pages, rootPageID, id, key)) ==> Valid()
      ensures !old(KeepsTreeAt(pages, rootPageID, id, key)) ==> Broken()
    {
      ghost var pages', _, _ := LeafShrinks(pages, rootPageID, own, contents, numPages, path, id, key);
      ghost var i := UnderflowFacts(pages, rootPageID, own, contents, path, id, key);
      pages := pages[id := LeafDelete(pages[id], key)];
      contents := contents - {key};
      assert pages == pages';
      HandleLeafUnderflow(path[|path| - 1], id, key, i);
    }

    /** Takes key out of the leaf that holds it, and rebalances if that leaf is then below its minimum. */
    method DeleteFrom(path: seq<PageId>, id: PageId, key: uint64)
      requires Valid() && PathHolds(pages, rootPageID, own, path, id) && LeafReady(pages, own, contents, id, key)
      requires key in contents
      modifies this
      ensures pages.Keys == old(pages.Keys)
      ensures contents == old(contents) - {key} && rootPageID == old(rootPageID) && numPages == old(numPages)
      ensures old(DeleteKeepsTree(pages, rootPageID, own, contents, key)) ==> Valid()
      ensures !old(DeleteKeepsTree(pages, rootPageID, own, contents, key)) ==> Broken()
      ensures epoch == if old(Underflows(pages, rootPageID, own, contents, key)) then old(epoch) + 1 else old(epoch)
      ensures epoch == old(epoch) ==>
        Valid() && own == old(own) && OnlyDeleted(old(pages), pages, own, old(contents),
                                                  key) && (old(MinFilled()) ==> MinFilled())
    {
      DecidedAt(pages, rootPageID, own, contents, id, key);
      if id == rootPageID || |LeafDelete(pages[id], key).keys| >= MIN_LEAF {
        ShrinkLeaf(path, id, key);
      } else {
        epoch := epoch + 1;
        ShrinkAndRebalance(path, id, key);
      }
    }

    /** Whether deleting key would leave a tree: the pages alone decide. */
    method KeepsTree(key: uint64) returns (keeps: bool)
      requires Valid()
      ensures keeps <==> DeleteKeepsTree(pages, rootPageID, own, contents, key)
    {
      var path, id := Descend(key);
      DecidedAt(pages, rootPageID, own, contents, id, key);
      return KeepsTreeAt(pages, rootPageID, id, key);
    }

    /** Deletes key. The result is a tree again exactly when DeleteKeepsTree says so beforehand. */
    method Delete(key: uint64) returns (found: bool)
      requires Valid()
      modifies this
      ensures found <==> key in old(contents)
      ensures !found ==>
        pages == old(pages) && own == old(own) && epoch == old(epoch) && Valid() && contents == old(contents)
      ensures found ==> contents == old(contents) - {key}
      ensures found ==> (Valid() <==> old(DeleteKeepsTree(pages, rootPageID, own, contents, key)))
      ensures found && !Valid() ==> Broken()
      ensures epoch == if found && old(Underflows(pages, rootPageID, own, contents, key)) then old(epoch) + 1
        else old(epoch)
      ensures found && epoch == old(epoch) ==>
        Valid() && own == old(own) && OnlyDeleted(old(pages), pages, own, old(contents),
                                                  key) && (old(MinFilled()) ==> MinFilled())
      ensures rootPageID == old(rootPageID) && numPages == old(numPages) && pages.Keys == old(pages.Keys)
    {
      var path, id;
      path, id, found := Locate(key);
      if found {
        DeleteFrom(path, id, key);
      }
    }
  }
}
