/** What every node of a B+ tree satisfies, and how each structural step keeps it.

    Each live page owns a span: the keys it is responsible for, and its height above the
    leaves. A parent sees its children through spans too. The two views agree, except
    between a split and the moment the new right page is linked into the parent: then the
    parent still sees the left page with the span both halves share. */
module TreeInvariant {
  import opened Types
  import opened Sequences
  import opened Nodes

  datatype Span = Span(lo: Key, hi: Key, height: nat)

  type Pages = map<PageId, Node>
  type Spans = map<PageId, Span>

  ghost function ChildSpan(n: Node, s: Span, j: nat): Span
    requires n.Internal? && n.Shaped() && j < |n.children| && s.height > 0
  {
    Span(if j == 0 then s.lo else n.keys[j - 1], if j == |n.keys| then s.hi else n.keys[j], s.height - 1)
  }

  ghost predicate LeafHolds(n: Node, s: Span, contents: map<Key, RID>)
    requires n.Shaped()
  {
    n.Leaf? && s.height == 0 && Entries(n) == Slice(contents, s.lo, s.hi)
  }

  ghost predicate ChildHolds(pages: Pages, seen: Spans, id: PageId, s: Span, j: nat)
    requires id in pages && pages[id].Internal? && pages[id].Shaped() && j < |pages[id].children|
    requires s.height > 0
  {
    var c := pages[id].children[j];
    c in seen && c in pages && seen[c] == ChildSpan(pages[id], s, j) && pages[c].parent == id
  }

  ghost predicate RouteHolds(pages: Pages, seen: Spans, id: PageId, s: Span)
    requires id in pages && pages[id].Shaped()
  {
    && pages[id].Internal? && s.height > 0
    && (forall i :: 0 <= i < |pages[id].keys| ==> s.lo < pages[id].keys[i] < s.hi)
    && (forall j :: 0 <= j < |pages[id].children| ==> ChildHolds(pages, seen, id, s, j))
  }

  ghost predicate NodeHolds(pages: Pages, own: Spans, seen: Spans, contents: map<Key, RID>, id: PageId)
    requires id in own
  {
    && id in pages && pages[id].WellFormed() && own[id].lo < own[id].hi
    && (pages[id].Leaf? ==> LeafHolds(pages[id], own[id], contents))
    && (pages[id].Internal? ==> RouteHolds(pages, seen, id, own[id]))
  }

  /** Pages of equal height own disjoint spans. */
  ghost predicate Disjoint(own: Spans) {
    forall a, b :: a in own && b in own && a != b && own[a].height == own[b].height
      ==> own[a].hi <= own[b].lo || own[b].hi <= own[a].lo
  }

  /** The next link of a leaf leads to the leaf that owns the keys just above its own. */
  ghost predicate ChainHolds(pages: Pages, own: Spans, id: PageId)
    requires id in own && id in pages && pages[id].Leaf?
  {
    var next := pages[id].next;
    if next == 0 then own[id].hi == TWO_TO_64
    else next in own && own[next].height == 0 && own[next].lo == own[id].hi
  }

  ghost predicate NodesHold(pages: Pages, own: Spans, seen: Spans, contents: map<Key, RID>) {
    forall id :: id in own ==> NodeHolds(pages, own, seen, contents, id)
  }

  ghost predicate ChainsHold(pages: Pages, own: Spans) {
    forall id :: id in own && id in pages && pages[id].Leaf? ==> ChainHolds(pages, own, id)
  }

  ghost predicate RootMarked(pages: Pages, root: PageId, own: Spans) {
    forall id :: id in own && id in pages ==> (pages[id].isRoot <==> id == root)
  }

  ghost predicate SpansHold(root: PageId, own: Spans, seen: Spans) {
    && root in own && seen.Keys == own.Keys && 0 !in own
    && seen[root].lo == 0 && seen[root].hi == TWO_TO_64
    && (forall id :: id in own ==> own[id].height <= own[root].height && 0 <= own[id].lo && own[id].hi <= TWO_TO_64)
    && Disjoint(own)
  }

  ghost predicate Inv(pages: Pages, root: PageId, own: Spans, seen: Spans, contents: map<Key, RID>) {
    && SpansHold(root, own, seen)
    && NodesHold(pages, own, seen, contents)
    && ChainsHold(pages, own)
    && RootMarked(pages, root, own)
    && (forall k :: k in contents ==> k < TWO_TO_64)
  }

  /** No split is in flight: parents see exactly what their children own. */
  ghost predicate Settled(pages: Pages, root: PageId, own: Spans, contents: map<Key, RID>) {
    Inv(pages, root, own, own, contents)
  }

  ghost function Joined(own: Spans, left: PageId, right: PageId): Spans
    requires left in own && right in own
  {
    own[left := Span(own[left].lo, own[right].hi, own[left].height)]
  }

  ghost predicate NoParent(pages: Pages, own: Spans, right: PageId) {
    forall id :: id in own && id in pages && pages[id].Internal? ==> right !in pages[id].children
  }

  /** The page right has been split off left, and no parent knows it yet. */
  ghost predicate Pending(pages: Pages, root: PageId, own: Spans, contents: map<Key, RID>, left: PageId,
                          right: PageId) {
    && left in own && right in own && left != right && right != root
    && own[left].height == own[right].height && own[left].hi == own[right].lo
    && Inv(pages, root, own, Joined(own, left, right), contents)
    && NoParent(pages, own, right)
  }

  /** Each page of path has the next one, and finally cur, among its children. */
  ghost predicate PathHolds(pages: Pages, root: PageId, own: Spans, path: seq<PageId>, cur: PageId) {
    && cur in own && (if path == [] then cur == root else path[0] == root)
    && forall i :: 0 <= i < |path| ==> StepHolds(pages, own, path, cur, i)
  }

  ghost predicate StepHolds(pages: Pages, own: Spans, path: seq<PageId>, cur: PageId, i: nat)
    requires i < |path| && cur in own
  {
    && path[i] in own && path[i] in pages && pages[path[i]].Internal?
    && own[path[i]].height == own[cur].height + |path| - i
    && (if i + 1 < |path| then path[i + 1] else cur) in pages[path[i]].children
  }

  // ---------- descending ----------

  lemma RouteSpan(pages: Pages, root: PageId, own: Spans, contents: map<Key, RID>, id: PageId, k: Key)
    requires Settled(pages, root, own, contents)
    requires id in own && pages[id].Internal? && own[id].lo <= k < own[id].hi
    ensures pages[id].Shaped()
    ensures var c := Route(pages[id], k);
      c in pages[id].children && c in own && own[c].lo <= k < own[c].hi && own[c].height == own[id].height - 1
  {
    assert NodeHolds(pages, own, own, contents, id);
    var j := FirstAbove(pages[id].keys, k);
    assert ChildHolds(pages, own, id, own[id], j);
  }

  // ---------- inserting into a leaf ----------

  lemma SliceUpdate(c: map<Key, RID>, lo: Key, hi: Key, k: Key, r: RID)
    ensures lo <= k < hi ==> Slice(c[k := r], lo, hi) == Slice(c, lo, hi)[k := r]
    ensures !(lo <= k < hi) ==> Slice(c[k := r], lo, hi) == Slice(c, lo, hi)
  {
  }

  /** A route depends only on its own keys and children, and on how its children appear. */
  lemma RouteFrame(pages: Pages, pages': Pages, seen: Spans, seen': Spans, id: PageId, s: Span)
    requires id in pages && pages[id].Shaped() && RouteHolds(pages, seen, id, s)
    requires id in pages' && pages'[id].Internal?
    requires pages'[id].keys == pages[id].keys && pages'[id].children == pages[id].children
    requires forall c :: c in pages[id].children && c in pages && c in seen ==>
               c in pages' && c in seen' && seen'[c] == seen[c] && pages'[c].parent == pages[c].parent
    ensures pages'[id].Shaped() && RouteHolds(pages', seen', id, s)
  {
    forall j | 0 <= j < |pages[id].children| ensures ChildHolds(pages', seen', id, s, j) {
      assert ChildHolds(pages, seen, id, s, j);
    }
  }

  lemma LeafInsertKeepsNode(pages: Pages, own: Spans, seen: Spans, contents: map<Key, RID>, id: PageId, k: Key, r: RID,
                            x: PageId)
    requires NodesHold(pages, own, seen, contents) && Disjoint(own) && x in own
    requires id in own && id in pages && pages[id].WellFormed() && pages[id].Leaf? && own[id].lo <= k < own[id].hi
    ensures NodeHolds(pages[id := LeafInsert(pages[id], k, r)], own, seen, contents[k := r], x)
  {
    assert NodeHolds(pages, own, seen, contents, x);
    assert NodeHolds(pages, own, seen, contents, id);
    if pages[x].Internal? {
      RouteFrame(pages, pages[id := LeafInsert(pages[id], k, r)], seen, seen, x, own[x]);
    } else {
      SliceUpdate(contents, own[x].lo, own[x].hi, k, r);
      if x == id { LeafInsertIsMapUpdate(pages[id], k, r); }
    }
  }

  lemma LeafInsertKeepsChains(pages: Pages, root: PageId, own: Spans, id: PageId, n: Node)
    requires ChainsHold(pages, own) && RootMarked(pages, root, own)
    requires id in own && id in pages && pages[id].Leaf?
    requires n.Leaf? && n.next == pages[id].next && n.isRoot == pages[id].isRoot
    ensures ChainsHold(pages[id := n], own) && RootMarked(pages[id := n], root, own)
  {
  }

  /** Inserting into a leaf updates one key of the map, whether or not a split is in flight. */
  lemma LeafInsertKeeps(pages: Pages, root: PageId, own: Spans, seen: Spans, contents: map<Key, RID>, id: PageId,
                        k: Key, r: RID)
    requires Inv(pages, root, own, seen, contents)
    requires id in own && id in pages && pages[id].WellFormed() && pages[id].Leaf?
    requires own[id].lo <= k < own[id].hi && k < TWO_TO_64
    ensures Inv(pages[id := LeafInsert(pages[id], k, r)], root, own, seen, contents[k := r])
  {
    LeafInsertKeepsChains(pages, root, own, id, LeafInsert(pages[id], k, r));
    forall x | x in own ensures NodeHolds(pages[id := LeafInsert(pages[id], k, r)], own, seen, contents[k := r], x) {
      LeafInsertKeepsNode(pages, own, seen, contents, id, k, r, x);
    }
  }

  // ---------- splitting a page ----------

  ghost function SplitSpans(own: Spans, id: PageId, key: Key, newID: PageId): Spans
    requires id in own
  {
    var s := own[id];
    own[id := Span(s.lo, key, s.height)][newID := Span(key, s.hi, s.height)]
  }

  /** Facts about a freshly split page that hold whether it is a leaf or a route. */
  lemma PendingFromSplit(pages': Pages, root: PageId, own: Spans, contents: map<Key, RID>, id: PageId, key: Key,
                         newID: PageId)
    requires SpansHold(root, own, own) && (forall k :: k in contents ==> k < TWO_TO_64)
    requires id in own && newID !in own && newID != 0 && own[id].lo < key < own[id].hi
    requires var own' := SplitSpans(own, id, key, newID);
      && NodesHold(pages', own', Joined(own', id, newID), contents)
      && ChainsHold(pages', own') && RootMarked(pages', root, own')
    requires NoParent(pages', SplitSpans(own, id, key, newID), newID)
    ensures Pending(pages', root, SplitSpans(own, id, key, newID), contents, id, newID)
  {
  }

  lemma LeafHalves(n: Node, s: Span, contents: map<Key, RID>, m: nat, newID: PageId)
    requires n.Leaf? && n.WellFormed() && 0 < m < |n.keys| && LeafHolds(n, s, contents)
    ensures s.lo < n.keys[m] < s.hi
    ensures LeafSplit(n, m, newID).0.WellFormed() && LeafSplit(n, m, newID).1.WellFormed()
    ensures LeafHolds(LeafSplit(n, m, newID).0, Span(s.lo, n.keys[m], 0), contents)
    ensures LeafHolds(LeafSplit(n, m, newID).1, Span(n.keys[m], s.hi, 0), contents)
  {
    forall k | k in n.keys ensures s.lo <= k < s.hi { assert k in Entries(n); }
    assert n.keys[0] in n.keys && n.keys[m] in n.keys;
    LeafSplitLeft(n, m, newID, s.lo);
    LeafSplitRight(n, m, newID, s.hi);
    SliceOfSlice(contents, s.lo, n.keys[m], s.hi);
  }

  lemma SliceOfSlice(c: map<Key, RID>, lo: Key, mid: Key, hi: Key)
    requires lo <= mid <= hi
    ensures Slice(Slice(c, lo, hi), lo, mid) == Slice(c, lo, mid)
    ensures Slice(Slice(c, lo, hi), mid, hi) == Slice(c, mid, hi)
  {
  }

  lemma LeafSplitKeepsNode(pages: Pages, own: Spans, contents: map<Key, RID>, id: PageId, l: Node, r: Node, key: Key,
                           newID: PageId, x: PageId)
    requires NodesHold(pages, own, own, contents) && own.Keys <= pages.Keys
    requires id in own && own[id].height == 0 && own[id].lo < key < own[id].hi
    requires newID !in pages && (x in own || x == newID)
    requires l.Leaf? && l.WellFormed() && LeafHolds(l, Span(own[id].lo, key, 0), contents)
    requires l.parent == pages[id].parent
    requires r.Leaf? && r.WellFormed() && LeafHolds(r, Span(key, own[id].hi, 0), contents)
    ensures var own' := SplitSpans(own, id, key, newID);
      NodeHolds(pages[id := l][newID := r], own', Joined(own', id, newID), contents, x)
  {
    if x != id && x != newID {
      assert NodeHolds(pages, own, own, contents, x);
      if pages[x].Internal? {
        ChildrenAreLive(pages, own, own, contents, x);
        var own' := SplitSpans(own, id, key, newID);
        RouteFrame(pages, pages[id := l][newID := r], own, Joined(own', id, newID), x, own[x]);
      }
    }
  }

  lemma LeafSplitKeepsChains(pages: Pages, root: PageId, own: Spans, id: PageId, l: Node, r: Node, key: Key,
                             newID: PageId)
    requires ChainsHold(pages, own) && RootMarked(pages, root, own)
    requires id in own && id in pages && pages[id].Leaf? && own[id].height == 0 && newID !in own && newID != 0
    requires root != newID
    requires forall x :: x in own && x in pages && own[x].height == 0 ==> pages[x].Leaf?
    requires Disjoint(own) && own[id].lo < key < own[id].hi
    requires l.Leaf? && r.Leaf? && l.next == newID && r.next == pages[id].next && l.isRoot == pages[id].isRoot
    requires !r.isRoot
    ensures var pages' := pages[id := l][newID := r]; var own' := SplitSpans(own, id, key, newID);
      ChainsHold(pages', own') && RootMarked(pages', root, own')
  {
  }

  lemma LeafSplitKeepsNodes(pages: Pages, own: Spans, contents: map<Key, RID>, id: PageId, l: Node, r: Node, key: Key,
                            newID: PageId)
    requires NodesHold(pages, own, own, contents) && own.Keys <= pages.Keys
    requires id in own && own[id].height == 0 && own[id].lo < key < own[id].hi && newID !in pages
    requires l.Leaf? && l.WellFormed() && LeafHolds(l, Span(own[id].lo, key, 0), contents)
    requires l.parent == pages[id].parent
    requires r.Leaf? && r.WellFormed() && LeafHolds(r, Span(key, own[id].hi, 0), contents)
    ensures var own' := SplitSpans(own, id, key, newID);
      NodesHold(pages[id := l][newID := r], own', Joined(own', id, newID), contents)
  {
    var own' := SplitSpans(own, id, key, newID);
    forall x | x in own' ensures NodeHolds(pages[id := l][newID := r], own', Joined(own', id, newID), contents, x) {
      LeafSplitKeepsNode(pages, own, contents, id, l, r, key, newID, x);
    }
  }

  lemma FreshIsNoChild(pages: Pages, own: Spans, seen: Spans, contents: map<Key, RID>, newID: PageId)
    requires NodesHold(pages, own, seen, contents) && newID !in pages
    ensures NoParent(pages, own, newID)
  {
    forall x | x in own && x in pages && pages[x].Internal? ensures newID !in pages[x].children {
      ChildrenAreLive(pages, own, seen, contents, x);
    }
  }

  lemma LeafSplitPends(pages: Pages, root: PageId, own: Spans, contents: map<Key, RID>, id: PageId, l: Node, r: Node,
                       key: Key, newID: PageId)
    requires Settled(pages, root, own, contents)
    requires id in own && id in pages && own[id].height == 0 && own[id].lo < key < own[id].hi
    requires newID !in pages && newID != 0
    requires l.Leaf? && l.WellFormed() && LeafHolds(l, Span(own[id].lo, key, 0), contents)
    requires r.Leaf? && r.WellFormed() && LeafHolds(r, Span(key, own[id].hi, 0), contents)
    requires l.parent == pages[id].parent && l.isRoot == pages[id].isRoot && !r.isRoot && l.next == newID
    requires pages[id].Leaf? && r.next == pages[id].next
    ensures Pending(pages[id := l][newID := r], root, SplitSpans(own, id, key, newID), contents, id, newID)
  {
    GroundIsLeaf(pages, own, own, contents);
    LeafSplitKeepsChains(pages, root, own, id, l, r, key, newID);
    LeafSplitKeepsNodes(pages, own, contents, id, l, r, key, newID);
    FreshIsNoChild(pages, own, own, contents, newID);
    PendingFromSplit(pages[id := l][newID := r], root, own, contents, id, key, newID);
  }

  lemma GroundIsLeaf(pages: Pages, own: Spans, seen: Spans, contents: map<Key, RID>)
    requires NodesHold(pages, own, seen, contents)
    ensures own.Keys <= pages.Keys
    ensures forall x :: x in own ==> (pages[x].Leaf? <==> own[x].height == 0)
  {
    forall x | x in own ensures x in pages && (pages[x].Leaf? <==> own[x].height == 0) {
      assert NodeHolds(pages, own, seen, contents, x);
    }
  }

  lemma ChildrenAreLive(pages: Pages, own: Spans, seen: Spans, contents: map<Key, RID>, id: PageId)
    requires NodesHold(pages, own, seen, contents) && id in own && id in pages && pages[id].Internal?
    ensures forall c :: c in pages[id].children ==> c in seen && c in pages && pages[c].parent == id
  {
    assert NodeHolds(pages, own, seen, contents, id);
    forall c | c in pages[id].children ensures c in seen && c in pages && pages[c].parent == id {
      var j :| 0 <= j < |pages[id].children| && pages[id].children[j] == c;
      assert ChildHolds(pages, seen, id, own[id], j);
    }
  }

  /** Equal nodes up to their header: kind, keys and payload agree. */
  ghost predicate SameBody(n: Node, m: Node) {
    n.keys == m.keys && match n
      case Leaf(_, _, _, _, _) => m.Leaf? && n.rids == m.rids
      case Internal(_, _, _, _) => m.Internal? && n.children == m.children
  }

  lemma LeafFrame(n: Node, m: Node)
    requires n.Leaf? && n.Shaped() && SameBody(n, m)
    ensures m.Shaped() && Entries(m) == Entries(n)
  {
  }

  lemma NodeFrame(pages: Pages, pages': Pages, own: Spans, own': Spans, seen: Spans, seen': Spans, contents: map<Key,
                  RID>, x: PageId)
    requires x in own && NodeHolds(pages, own, seen, contents, x)
    requires x in own' && own'[x] == own[x] && x in pages' && SameBody(pages[x], pages'[x])
    requires pages[x].Internal? ==> forall c :: c in pages[x].children && c in pages && c in seen ==>
               c in pages' && c in seen' && seen'[c] == seen[c] && pages'[c].parent == pages[c].parent
    ensures NodeHolds(pages', own', seen', contents, x)
  {
    if pages[x].Internal? {
      RouteFrame(pages, pages', seen, seen', x, own[x]);
    } else {
      LeafFrame(pages[x], pages'[x]);
    }
  }

  function SetParents(pages: Pages, ids: seq<PageId>, parent: PageId): Pages {
    map id | id in pages :: if id in ids then pages[id].(parent := parent, isRoot := false) else pages[id]
  }

  lemma ChildrenDistinct(pages: Pages, seen: Spans, id: PageId, s: Span, i: nat, j: nat)
    requires id in pages && pages[id].WellFormed() && RouteHolds(pages, seen, id, s)
    requires i < j < |pages[id].children|
    ensures pages[id].children[i] != pages[id].children[j]
  {
    assert ChildHolds(pages, seen, id, s, i) && ChildHolds(pages, seen, id, s, j);
  }

  /** Both halves of a split route see the children they keep just as the whole saw them. */
  lemma RouteHalves(n: Node, s: Span, m: nat)
    requires n.Internal? && n.WellFormed() && m < |n.keys| && s.height > 0
    requires forall i :: 0 <= i < |n.keys| ==> s.lo < n.keys[i] < s.hi
    ensures RouteSplit(n, m).0.WellFormed() && RouteSplit(n, m).2.WellFormed()
    ensures var (l, key, r) := RouteSplit(n, m);
      && (forall i :: 0 <= i < |l.keys| ==> s.lo < l.keys[i] < key)
      && (forall i :: 0 <= i < |r.keys| ==> key < r.keys[i] < s.hi)
      && (forall j :: 0 <= j < |l.children| ==>
            l.children[j] == n.children[j] && ChildSpan(l, Span(s.lo, key, s.height), j) == ChildSpan(n, s, j))
      && (forall j :: 0 <= j < |r.children| ==>
            && r.children[j] == n.children[m + 1 + j]
            && ChildSpan(r, Span(key, s.hi, s.height), j) == ChildSpan(n, s, m + 1 + j))
  {
  }

  lemma RouteSplitKeepsLeft(pages: Pages, own: Spans, contents: map<Key, RID>, id: PageId, m: nat, newID: PageId)
    requires NodesHold(pages, own, own, contents)
    requires id in own && id in pages && pages[id].Internal? && pages[id].WellFormed() && m < |pages[id].keys|
    requires newID !in pages
    ensures var (l, key, r) := RouteSplit(pages[id], m);
      var own' := SplitSpans(own, id, key, newID);
      NodeHolds(SetParents(pages[id := l][newID := r], r.children, newID), own', Joined(own', id, newID), contents, id)
  {
    assert NodeHolds(pages, own, own, contents, id);
    var n, s := pages[id], own[id];
    var (l, key, r) := RouteSplit(n, m);
    var own' := SplitSpans(own, id, key, newID);
    var pages' := SetParents(pages[id := l][newID := r], r.children, newID);
    RouteHalves(n, s, m);
    assert id !in r.children by {
      ChildrenAreLive(pages, own, own, contents, id);
      HeightsDescend(pages, own, own, contents, id);
    }
    forall j | 0 <= j < |l.children| ensures ChildHolds(pages', Joined(own', id, newID), id, own'[id], j) {
      assert ChildHolds(pages, own, id, s, j);
      forall i | 0 <= i < |r.children| ensures r.children[i] != l.children[j] {
        ChildrenDistinct(pages, own, id, s, j, m + 1 + i);
      }
    }
  }

  lemma HeightsDescend(pages: Pages, own: Spans, seen: Spans, contents: map<Key, RID>, id: PageId)
    requires NodesHold(pages, own, seen, contents) && id in own && id in pages && pages[id].Internal?
    ensures forall c :: c in pages[id].children ==> c in seen && seen[c].height == own[id].height - 1
  {
    assert NodeHolds(pages, own, seen, contents, id);
    forall c | c in pages[id].children ensures c in seen && seen[c].height == own[id].height - 1 {
      var j :| 0 <= j < |pages[id].children| && pages[id].children[j] == c;
      assert ChildHolds(pages, seen, id, own[id], j);
    }
  }

  lemma RouteSplitKeepsRight(pages: Pages, own: Spans, contents: map<Key, RID>, id: PageId, m: nat, newID: PageId)
    requires NodesHold(pages, own, own, contents)
    requires id in own && id in pages && pages[id].Internal? && pages[id].WellFormed() && m < |pages[id].keys|
    requires newID !in pages
    ensures var (l, key, r) := RouteSplit(pages[id], m);
      var own' := SplitSpans(own, id, key, newID);
      NodeHolds(SetParents(pages[id := l][newID := r], r.children, newID), own', Joined(own', id, newID), contents,
                newID)
  {
    assert NodeHolds(pages, own, own, contents, id);
    var n, s := pages[id], own[id];
    var (l, key, r) := RouteSplit(n, m);
    var own' := SplitSpans(own, id, key, newID);
    var pages' := SetParents(pages[id := l][newID := r], r.children, newID);
    RouteHalves(n, s, m);
    ChildrenAreLive(pages, own, own, contents, id);
    assert newID !in n.children;
    forall j | 0 <= j < |r.children| ensures ChildHolds(pages', Joined(own', id, newID), newID, own'[newID], j) {
      assert ChildHolds(pages, own, id, s, m + 1 + j);
      assert r.children[j] in n.children;
    }
  }

  lemma RouteSplitKeepsNodes(pages: Pages, own: Spans, contents: map<Key, RID>, id: PageId, m: nat, newID: PageId)
    requires NodesHold(pages, own, own, contents)
    requires id in own && id in pages && pages[id].Internal? && pages[id].WellFormed() && m < |pages[id].keys|
    requires newID !in pages
    ensures var (l, key, r) := RouteSplit(pages[id], m);
      var own' := SplitSpans(own, id, key, newID);
      NodesHold(SetParents(pages[id := l][newID := r], r.children, newID), own', Joined(own', id, newID), contents)
  {
    var (l, key, r) := RouteSplit(pages[id], m);
    var own' := SplitSpans(own, id, key, newID);
    var pages' := SetParents(pages[id := l][newID := r], r.children, newID);
    forall x | x in own' ensures NodeHolds(pages', own', Joined(own', id, newID), contents, x) {
      if x == id {
        RouteSplitKeepsLeft(pages, own, contents, id, m, newID);
      } else if x == newID {
        RouteSplitKeepsRight(pages, own, contents, id, m, newID);
      } else {
        assert NodeHolds(pages, own, own, contents, x);
        ChildrenAreLive(pages, own, own, contents, id);
        if pages[x].Internal? {
          ChildrenAreLive(pages, own, own, contents, x);
          assert forall c :: c in r.children ==> c in pages[id].children;
        }
        NodeFrame(pages, pages', own, own', own, Joined(own', id, newID), contents, x);
      }
    }
  }

  lemma RouteSplitKeepsChains(pages: Pages, root: PageId, own: Spans, contents: map<Key, RID>, id: PageId, m: nat,
                              newID: PageId)
    requires Settled(pages, root, own, contents)
    requires id in own && id in pages && pages[id].Internal? && pages[id].WellFormed() && m < |pages[id].keys|
    requires newID !in pages
    ensures var (l, key, r) := RouteSplit(pages[id], m);
      var own' := SplitSpans(own, id, key, newID);
      var pages' := SetParents(pages[id := l][newID := r], r.children, newID);
      ChainsHold(pages', own') && RootMarked(pages', root, own') && own[id].lo < key < own[id].hi
  {
    assert NodeHolds(pages, own, own, contents, id);
    var (l, key, r) := RouteSplit(pages[id], m);
    var own' := SplitSpans(own, id, key, newID);
    var pages' := SetParents(pages[id := l][newID := r], r.children, newID);
    GroundIsLeaf(pages, own, own, contents);
    forall x | x in own' && x in pages' && pages'[x].Leaf? ensures ChainHolds(pages', own', x) {
      assert ChainHolds(pages, own, x);
    }
    HeightsDescend(pages, own, own, contents, id);
    assert forall c :: c in r.children ==> c in pages[id].children;
    assert root !in r.children;
  }

  lemma RouteSplitPends(pages: Pages, root: PageId, own: Spans, contents: map<Key, RID>, id: PageId, m: nat,
                        newID: PageId)
    requires Settled(pages, root, own, contents)
    requires id in own && id in pages && pages[id].Internal? && pages[id].WellFormed() && m < |pages[id].keys|
    requires newID !in pages && newID != 0
    ensures var (l, key, r) := RouteSplit(pages[id], m);
      Pending(SetParents(pages[id := l][newID := r], r.children, newID), root, SplitSpans(own, id, key, newID),
              contents, id, newID)
  {
    var (l, key, r) := RouteSplit(pages[id], m);
    var pages' := SetParents(pages[id := l][newID := r], r.children, newID);
    GroundIsLeaf(pages, own, own, contents);
    RouteSplitKeepsNodes(pages, own, contents, id, m, newID);
    RouteSplitKeepsChains(pages, root, own, contents, id, m, newID);
    FreshIsNoChild(pages, own, own, contents, newID);
    assert newID !in pages[id].children;
    PendingFromSplit(pages', root, own, contents, id, key, newID);
  }

  // ---------- a new root ----------

  function NewRootPages(pages: Pages, left: PageId, key: Key, right: PageId, newID: PageId): Pages {
    SetParents(pages[newID := Internal(true, 0, [key], [left, right])], [left, right], newID)
  }

  ghost function NewRootSpans(own: Spans, root: PageId, newID: PageId): Spans
    requires root in own
  {
    own[newID := Span(0, TWO_TO_64, own[root].height + 1)]
  }

  lemma NewRootKeepsNode(pages: Pages, root: PageId, own: Spans, contents: map<Key, RID>, right: PageId, newID: PageId,
                         x: PageId)
    requires Pending(pages, root, own, contents, root, right) && newID !in pages && newID != 0
    requires x in own
    ensures var pages' := NewRootPages(pages, root, own[right].lo, right, newID);
      var own' := NewRootSpans(own, root, newID);
      NodeHolds(pages', own', own', contents, x)
  {
    var seen := Joined(own, root, right);
    var pages' := NewRootPages(pages, root, own[right].lo, right, newID);
    var own' := NewRootSpans(own, root, newID);
    GroundIsLeaf(pages, own, seen, contents);
    if pages[x].Internal? {
      ChildrenAreLive(pages, own, seen, contents, x);
      HeightsDescend(pages, own, seen, contents, x);
      assert root !in pages[x].children;
    }
    NodeFrame(pages, pages', own, own', seen, own', contents, x);
  }

  lemma NewRootHolds(pages: Pages, root: PageId, own: Spans, contents: map<Key, RID>, right: PageId, newID: PageId)
    requires Pending(pages, root, own, contents, root, right) && newID !in pages && newID != 0
    ensures var pages' := NewRootPages(pages, root, own[right].lo, right, newID);
      var own' := NewRootSpans(own, root, newID);
      NodeHolds(pages', own', own', contents, newID)
  {
  }

  /** The leaf chain does not depend on the routes above it. */
  lemma ChainFrame(pages: Pages, pages': Pages, own: Spans, own': Spans)
    requires ChainsHold(pages, own)
    requires forall x :: x in own ==> x in own' && own'[x] == own[x]
    requires forall x :: x in own' && x in pages' && pages'[x].Leaf? ==>
               x in own && x in pages && pages[x].Leaf? && pages[x].next == pages'[x].next
    ensures ChainsHold(pages', own')
  {
  }

  lemma NewRootMarked(pages: Pages, root: PageId, own: Spans, right: PageId, newID: PageId)
    requires RootMarked(pages, root, own) && newID !in pages && right != newID && root != newID
    requires root in own && right in own && newID !in own
    ensures var pages' := NewRootPages(pages, root, own[right].lo, right, newID);
      RootMarked(pages', newID, NewRootSpans(own, root, newID))
  {
  }

  lemma NewTopDisjoint(own: Spans, newID: PageId, s: Span)
    requires Disjoint(own) && newID !in own && forall id :: id in own ==> own[id].height < s.height
    ensures Disjoint(own[newID := s])
  {
  }

  lemma NewRootKeepsNodes(pages: Pages, root: PageId, own: Spans, contents: map<Key, RID>, right: PageId, newID: PageId)
    requires Pending(pages, root, own, contents, root, right) && newID !in pages && newID != 0
    ensures var pages' := NewRootPages(pages, root, own[right].lo, right, newID);
      var own' := NewRootSpans(own, root, newID);
      NodesHold(pages', own', own', contents)
  {
    var own' := NewRootSpans(own, root, newID);
    var pages' := NewRootPages(pages, root, own[right].lo, right, newID);
    forall x | x in own' ensures NodeHolds(pages', own', own', contents, x) {
      if x == newID {
        NewRootHolds(pages, root, own, contents, right, newID);
      } else {
        NewRootKeepsNode(pages, root, own, contents, right, newID, x);
      }
    }
  }

  lemma NewRootSettles(pages: Pages, root: PageId, own: Spans, contents: map<Key, RID>, right: PageId, newID: PageId)
    requires Pending(pages, root, own, contents, root, right) && newID !in pages && newID != 0
    ensures Settled(NewRootPages(pages, root, own[right].lo, right, newID), newID,
                    NewRootSpans(own, root, newID), contents)
  {
    var pages' := NewRootPages(pages, root, own[right].lo, right, newID);
    var own' := NewRootSpans(own, root, newID);
    GroundIsLeaf(pages, own, Joined(own, root, right), contents);
    NewRootKeepsNodes(pages, root, own, contents, right, newID);
    NewTopDisjoint(own, newID, Span(0, TWO_TO_64, own[root].height + 1));
    ChainFrame(pages, pages', own, own');
    NewRootMarked(pages, root, own, right, newID);
  }

  // ---------- linking a split page into its parent ----------

  /** Where the parent keeps the left page is where the new separator goes. */
  lemma LinkPosition(pages: Pages, root: PageId, own: Spans, contents: map<Key, RID>, left: PageId, right: PageId,
                     p: PageId)
    returns (i: nat)
    requires Pending(pages, root, own, contents, left, right)
    requires p in own && p in pages && pages[p].Internal? && pages[p].WellFormed() && left in pages[p].children
    ensures i < |pages[p].children| && pages[p].children[i] == left
    ensures ChildHolds(pages, Joined(own, left, right), p, own[p], i)
    ensures FirstAtLeast(pages[p].keys, own[right].lo) == i && own[right].lo !in pages[p].keys
    ensures own[p].lo < own[right].lo < own[p].hi
  {
    var seen := Joined(own, left, right);
    assert NodeHolds(pages, own, seen, contents, p);
    i :| 0 <= i < |pages[p].children| && pages[p].children[i] == left;
    assert ChildHolds(pages, seen, p, own[p], i);
    assert NodeHolds(pages, own, seen, contents, left) && NodeHolds(pages, own, seen, contents, right);
    FirstAtLeastIs(pages[p].keys, own[right].lo, i);
    if own[right].lo in pages[p].keys { FirstAtLeastFinds(pages[p].keys, own[right].lo); }
  }

  ghost predicate LinkAt(pages: Pages, own: Spans, left: PageId, right: PageId, p: PageId, i: nat) {
    && left in own && right in own && p in own && p in pages && right in pages
    && left != right && p != right && p != left
    && pages[p].Internal? && pages[p].WellFormed() && own[p].height > 0 && own[right].lo !in pages[p].keys
    && i < |pages[p].children| && pages[p].children[i] == left && right !in pages[p].children
    && FirstAtLeast(pages[p].keys, own[right].lo) == i
    && own[left].height == own[right].height && own[left].hi == own[right].lo
    && RouteHolds(pages, Joined(own, left, right), p, own[p])
  }

  /** Where the children of a route go, and what they own, when one entry is inserted at i. */
  lemma RouteInsertSpans(n: Node, s: Span, key: Key, c: PageId, j: nat)
    requires n.Internal? && n.Shaped() && s.height > 0 && j <= |n.children|
    ensures var (n', i) := (RouteInsert(n, key, c), FirstAtLeast(n.keys, key));
      && |n'.children| == |n.children| + 1
      && (j < i ==> n'.children[j] == n.children[j] && ChildSpan(n', s, j) == ChildSpan(n, s, j))
      && (j == i ==> n'.children[j] == n.children[i] && ChildSpan(n', s, j) == ChildSpan(n, s, i).(hi := key))
      && (j == i + 1 ==> n'.children[j] == c && ChildSpan(n', s, j) == ChildSpan(n, s, i).(lo := key))
      && (j > i + 1 ==> n'.children[j] == n.children[j - 1] && ChildSpan(n', s, j) == ChildSpan(n, s, j - 1))
  {
  }

  lemma LinkKeepsFarChild(pages: Pages, own: Spans, left: PageId, right: PageId, p: PageId, i: nat, j: nat)
    requires LinkAt(pages, own, left, right, p, i) && j <= |pages[p].children| && j != i && j != i + 1
    ensures ChildHolds(SetParents(pages, [right], p)[p := RouteInsert(pages[p], own[right].lo, right)], own, p, own[p],
                       j)
  {
    RouteInsertSpans(pages[p], own[p], own[right].lo, right, j);
    var j' := if j < i then j else j - 1;
    assert ChildHolds(pages, Joined(own, left, right), p, own[p], j');
    if i < j' {
      ChildrenDistinct(pages, Joined(own, left, right), p, own[p], i, j');
    } else {
      ChildrenDistinct(pages, Joined(own, left, right), p, own[p], j', i);
    }
  }

  lemma LinkKeepsNearChild(pages: Pages, own: Spans, left: PageId, right: PageId, p: PageId, i: nat, j: nat)
    requires LinkAt(pages, own, left, right, p, i) && (j == i || j == i + 1)
    ensures ChildHolds(SetParents(pages, [right], p)[p := RouteInsert(pages[p], own[right].lo, right)], own, p, own[p],
                       j)
  {
    RouteInsertSpans(pages[p], own[p], own[right].lo, right, j);
    assert ChildHolds(pages, Joined(own, left, right), p, own[p], i);
  }

  lemma LinkIsAt(pages: Pages, root: PageId, own: Spans, contents: map<Key, RID>, left: PageId, right: PageId,
                 p: PageId, i: nat)
    requires Pending(pages, root, own, contents, left, right)
    requires p in own && p in pages && pages[p].Internal? && pages[p].WellFormed()
    requires i < |pages[p].children| && pages[p].children[i] == left && FirstAtLeast(pages[p].keys, own[right].lo) == i
    requires own[right].lo !in pages[p].keys
    ensures LinkAt(pages, own, left, right, p, i)
  {
    GroundIsLeaf(pages, own, Joined(own, left, right), contents);
    assert NodeHolds(pages, own, Joined(own, left, right), contents, p);
    HeightsDescend(pages, own, Joined(own, left, right), contents, p);
  }

  lemma LinkKeepsRoute(pages: Pages, own: Spans, left: PageId, right: PageId, p: PageId, i: nat)
    requires LinkAt(pages, own, left, right, p, i) && own[p].lo < own[right].lo < own[p].hi
    ensures RouteHolds(SetParents(pages, [right], p)[p := RouteInsert(pages[p], own[right].lo, right)], own, p, own[p])
  {
    var n := RouteInsert(pages[p], own[right].lo, right);
    var pages' := SetParents(pages, [right], p)[p := n];
    forall j | 0 <= j < |n.children| ensures ChildHolds(pages', own, p, own[p], j) {
      if j == i || j == i + 1 {
        LinkKeepsNearChild(pages, own, left, right, p, i, j);
      } else {
        LinkKeepsFarChild(pages, own, left, right, p, i, j);
      }
    }
    InsertAtMembers(pages[p].keys, i, own[right].lo);
    forall j | 0 <= j < |n.keys| ensures own[p].lo < n.keys[j] < own[p].hi {
      assert n.keys[j] in n.keys;
      assert n.keys[j] in pages[p].keys || n.keys[j] == own[right].lo;
    }
  }

  lemma LinkHoldsAtParent(pages: Pages, root: PageId, own: Spans, contents: map<Key, RID>, left: PageId, right: PageId,
                          p: PageId)
    requires Pending(pages, root, own, contents, left, right)
    requires p in own && p in pages && pages[p].Internal? && pages[p].WellFormed() && left in pages[p].children
    requires own[right].lo !in pages[p].keys
    ensures NodeHolds(SetParents(pages, [right], p)[p := RouteInsert(pages[p], own[right].lo, right)], own, own,
                      contents, p)
  {
    var i := LinkPosition(pages, root, own, contents, left, right, p);
    assert NodeHolds(pages, own, Joined(own, left, right), contents, p);
    LinkIsAt(pages, root, own, contents, left, right, p, i);
    LinkKeepsRoute(pages, own, left, right, p, i);
    SortedInsert(pages[p].keys, own[right].lo);
  }

  lemma LinkKeepsOther(pages: Pages, root: PageId, own: Spans, contents: map<Key, RID>, left: PageId, right: PageId,
                       p: PageId, n: Node, x: PageId)
    requires Pending(pages, root, own, contents, left, right)
    requires p in own && p in pages && pages[p].Internal? && left in pages[p].children
    requires x in own && x != p && n.parent == pages[p].parent
    ensures NodeHolds(SetParents(pages, [right], p)[p := n], own, own, contents, x)
  {
    var seen := Joined(own, left, right);
    GroundIsLeaf(pages, own, seen, contents);
    if pages[x].Internal? {
      ChildrenAreLive(pages, own, seen, contents, x);
      ChildrenAreLive(pages, own, seen, contents, p);
      assert left !in pages[x].children && right !in pages[x].children;
    }
    NodeFrame(pages, SetParents(pages, [right], p)[p := n], own, own, seen, own, contents, x);
  }

  lemma LinkMarked(pages: Pages, root: PageId, own: Spans, right: PageId, p: PageId, n: Node)
    requires RootMarked(pages, root, own) && p in pages && p != right && root != right && n.isRoot == pages[p].isRoot
    ensures RootMarked(SetParents(pages, [right], p)[p := n], root, own)
  {
  }

  lemma LinkSettles(pages: Pages, root: PageId, own: Spans, contents: map<Key, RID>, left: PageId, right: PageId,
                    p: PageId)
    requires Pending(pages, root, own, contents, left, right)
    requires p in own && p in pages && pages[p].Internal? && pages[p].WellFormed() && left in pages[p].children
    requires own[right].lo !in pages[p].keys
    ensures Settled(SetParents(pages, [right], p)[p := RouteInsert(pages[p], own[right].lo, right)], root, own,
                    contents)
  {
    var n := RouteInsert(pages[p], own[right].lo, right);
    var pages' := SetParents(pages, [right], p)[p := n];
    GroundIsLeaf(pages, own, Joined(own, left, right), contents);
    HeightsDescend(pages, own, Joined(own, left, right), contents, p);
    assert NodesHold(pages', own, own, contents) by {
      forall x | x in own ensures NodeHolds(pages', own, own, contents, x) {
        if x == p {
          LinkHoldsAtParent(pages, root, own, contents, left, right, p);
        } else {
          LinkKeepsOther(pages, root, own, contents, left, right, p, n, x);
        }
      }
    }
    ChainFrame(pages, pages', own, own);
    LinkMarked(pages, root, own, right, p, n);
  }
}
