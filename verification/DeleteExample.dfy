/** Deletion can break a tree, and what a broken one gets wrong. */
module DeleteExample {
  import opened Types
  import opened Sequences
  import opened Nodes
  import opened TreeInvariant
  import opened TreeRebalance
  import opened TreeDelete
  import opened TreeFill
  import opened BPlusTrees
  import opened Occupancy

  // ---------- a run that ends in a broken tree ----------

  /** The keys are n consecutive numbers from f on. */
  ghost predicate Consecutive(contents: map<Key, RID>, f: Key, n: nat) {
    forall k :: k in contents <==> f <= k < f + n
  }

  function Range(lo: int, hi: int): (s: set<int>)
    ensures forall k :: k in s <==> lo <= k < hi
    ensures |s| == if lo < hi then hi - lo else 0
    decreases hi - lo
  {
    if lo >= hi then {} else Range(lo, hi - 1) + {hi - 1}
  }

  lemma CountBelow(contents: map<Key, RID>, f: Key, n: nat, s: Key)
    requires Consecutive(contents, f, n) && 0 <= f
    ensures |Slice(contents, 0, s)| == if s <= f then 0 else if s <= f + n then s - f else n
    ensures |contents| == n
  {
    assert contents.Keys == Range(f, f + n);
    assert |contents| == |contents.Keys|;
    assert Slice(contents, 0, s).Keys == Range(f, if s <= f + n then s else f + n);
    assert |Slice(contents, 0, s)| == |Slice(contents, 0, s).Keys|;
  }

  /** The root routes to two leaves, a below the separator s and b from it on. */
  ghost predicate TwoLeaves(pages: Pages, root: PageId, own: Spans, a: PageId, b: PageId, s: Key) {
    && root in own && root in pages && pages[root].Internal?
    && pages[root].keys == [s] && pages[root].children == [a, b]
    && a in own && b in own && own[a] == Span(0, s, 0) && own[b] == Span(s, TWO_TO_64, 0) && own[root].height == 1
    && a in pages && b in pages && pages[a].Leaf? && pages[b].Leaf? && a != b && a != root && b != root
    && pages[a].parent == root == pages[b].parent
  }

  lemma OneRoute(pages: Pages, root: PageId, own: Spans, contents: map<Key, RID>, numPages: int)
    requires TreeHolds(pages, root, own, contents, numPages) && Filled(pages, root, own)
    requires 2 * MIN_LEAF < |contents| < 3 * MIN_LEAF
    requires forall k :: k in contents ==> 0 <= k
    ensures own[root].height == 1
  {
    var h := own[root].height;
    assert NodeHolds(pages, own, own, contents, root);
    if h == 0 {
      assert Slice(contents, 0, TWO_TO_64) == contents;
      LeafCount(pages[root], own[root], contents);
    } else if h > 1 {
      assert Power(h) == MIN_LEAF * (MIN_LEAF * Power(h - 2));
      TreeIsDense(pages, root, own, contents);
    }
  }

  lemma ChildrenAreTwo(pages: Pages, root: PageId, own: Spans, contents: map<Key, RID>)
    requires Settled(pages, root, own, contents) && Filled(pages, root, own) && own[root].height == 1
    requires |contents| < 3 * MIN_LEAF
    ensures NodeHolds(pages, own, own, contents, root) && pages[root].Internal? && |pages[root].children| == 2
  {
    assert NodeHolds(pages, own, own, contents, root);
    var n := pages[root];
    ChildrenSum(pages, root, own, contents, root, |n.children|);
    assert Power(1) == MIN_LEAF * Power(0);
    var below := Slice(contents, own[root].lo, ChildSpan(n, own[root], |n.children| - 1).hi);
    SubsetSize(below.Keys, contents.Keys);
    assert |below| == |below.Keys| && |contents| == |contents.Keys|;
  }

  lemma ChildrenAre(pages: Pages, root: PageId, own: Spans, contents: map<Key, RID>)
    returns (a: PageId, b: PageId, s: Key)
    requires Settled(pages, root, own, contents) && own[root].height == 1
    requires root in pages && pages[root].Internal? && |pages[root].children| == 2
    ensures TwoLeaves(pages, root, own, a, b, s)
  {
    assert NodeHolds(pages, own, own, contents, root);
    a, b, s := pages[root].children[0], pages[root].children[1], pages[root].keys[0];
    assert ChildHolds(pages, own, root, own[root], 0) && ChildHolds(pages, own, root, own[root], 1);
    GroundIsLeaf(pages, own, own, contents);
    ChildrenDistinct(pages, own, root, own[root], 0, 1);
  }

  lemma TwoLeavesBelow(pages: Pages, root: PageId, own: Spans, contents: map<Key, RID>)
    returns (a: PageId, b: PageId, s: Key)
    requires Settled(pages, root, own, contents) && Filled(pages, root, own)
    requires root in own && own[root].height == 1 && |contents| < 3 * MIN_LEAF
    requires forall k :: k in contents ==> 0 <= k
    ensures TwoLeaves(pages, root, own, a, b, s)
    ensures |pages[a].keys| == |Slice(contents, 0, s)| >= MIN_LEAF
    ensures |pages[b].keys| == |contents| - |Slice(contents, 0, s)| >= MIN_LEAF
  {
    ChildrenAreTwo(pages, root, own, contents);
    a, b, s := ChildrenAre(pages, root, own, contents);
    assert NodeHolds(pages, own, own, contents, a) && NodeHolds(pages, own, own, contents, b);
    LeafSizes(pages[a], pages[b], contents, s);
  }

  lemma LeafSizes(left: Node, right: Node, contents: map<Key, RID>, s: Key)
    requires left.Leaf? && left.WellFormed() && LeafHolds(left, Span(0, s, 0), contents)
    requires right.Leaf? && right.WellFormed() && LeafHolds(right, Span(s, TWO_TO_64, 0), contents)
    requires 0 <= s <= TWO_TO_64 && forall k :: k in contents ==> 0 <= k < TWO_TO_64
    ensures |left.keys| == |Slice(contents, 0, s)| && |right.keys| == |contents| - |Slice(contents, 0, s)|
  {
    LeafCount(left, Span(0, s, 0), contents);
    LeafCount(right, Span(s, TWO_TO_64, 0), contents);
    SliceSplits(contents, 0, s, TWO_TO_64);
    assert Slice(contents, 0, TWO_TO_64) == contents;
  }

  /** One more key than two leaves at their minimum hold: taking it away underflows neither. */
  lemma SpareKey(pages: Pages, root: PageId, own: Spans, contents: map<Key, RID>, numPages: int) returns (s: Key)
    requires TreeHolds(pages, root, own, contents, numPages) && Filled(pages, root, own)
    requires Consecutive(contents, 0, 2 * MIN_LEAF + 1)
    ensures own[root].height == 1 && root in pages && pages[root].Internal? && pages[root].keys == [s]
    ensures MIN_LEAF <= s <= MIN_LEAF + 1
    ensures !Underflows(pages, root, own, contents, if s == MIN_LEAF then 2 * MIN_LEAF else 0)
  {
    CountBelow(contents, 0, 2 * MIN_LEAF + 1, 0);
    OneRoute(pages, root, own, contents, numPages);
    var a, b;
    a, b, s := TwoLeavesBelow(pages, root, own, contents);
    CountBelow(contents, 0, 2 * MIN_LEAF + 1, s);
    var key := if s == MIN_LEAF then 2 * MIN_LEAF else 0;
    var id := if s == MIN_LEAF then b else a;
    assert LeafReady(pages, own, contents, id, key);
    LeafDeleteIsMapRemove(pages[id], key);
    OwnedKeys(pages[id], own[id], contents, key);
    DecidedAt(pages, root, own, contents, id, key);
  }

  /** Two leaves at their minimum: when the right one is to lose the separator, the merge looks for its next key among
      the separators, where only the lost one stands. */
  lemma MergeMisses(pages: Pages, root: PageId, own: Spans, contents: map<Key, RID>, a: PageId, b: PageId, s: Key)
    requires Settled(pages, root, own, contents) && TwoLeaves(pages, root, own, a, b, s)
    requires |pages[a].keys| == MIN_LEAF == |pages[b].keys| && s in contents && 0 <= s < TWO_TO_64
    ensures !DeleteKeepsTree(pages, root, own, contents, s)
  {
    assert LeafReady(pages, own, contents, b, s) by { assert NodeHolds(pages, own, own, contents, b); }
    DecidedAt(pages, root, own, contents, b, s);
    var n := FirstKeyGone(pages[b], own[b], contents, s);
    MissesAt(pages, root, a, b, s);
  }

  lemma MissesAt(pages: Pages, root: PageId, a: PageId, b: PageId, s: Key)
    requires root in pages && pages[root].Internal? && pages[root].keys == [s] && pages[root].children == [a, b]
    requires a in pages && b in pages && a != b && a != root && b != root && pages[b].Leaf? && pages[b].Shaped()
    requires pages[b].parent == root
    requires |pages[a].keys| == MIN_LEAF && |LeafDelete(pages[b], s).keys| == MIN_LEAF - 1
    requires LeafDelete(pages[b], s).keys[0] != s
    ensures !KeepsTreeAt(pages, root, b, s)
  {
    assert IndexOf([a, b], b) == 1 + IndexOf([b], b);
  }

  lemma FirstKeyGone(leaf: Node, span: Span, contents: map<Key, RID>, s: Key) returns (n: Node)
    requires leaf.Leaf? && leaf.WellFormed() && LeafHolds(leaf, span, contents) && |leaf.keys| == MIN_LEAF
    requires s in contents && span.lo <= s < span.hi
    ensures n == LeafDelete(leaf, s) && |n.keys| == MIN_LEAF - 1 && n.keys[0] != s
  {
    n := LeafDelete(leaf, s);
    LeafDeleteIsMapRemove(leaf, s);
    OwnedKeys(leaf, span, contents, s);
    assert n.keys[0] in Entries(n).Keys;
  }

  lemma MergeMissesSeparator(pages: Pages, root: PageId, own: Spans, contents: map<Key, RID>, numPages: int, f: Key)
    requires TreeHolds(pages, root, own, contents, numPages) && Filled(pages, root, own) && root in own
    requires own[root].height == 1
    requires Consecutive(contents, f, 2 * MIN_LEAF) && 0 <= f && f + MIN_LEAF < TWO_TO_64
    ensures !DeleteKeepsTree(pages, root, own, contents, f + MIN_LEAF)
  {
    CountBelow(contents, f, 2 * MIN_LEAF, 0);
    var a, b, s := TwoLeavesBelow(pages, root, own, contents);
    CountBelow(contents, f, 2 * MIN_LEAF, s);
    assert s == f + MIN_LEAF;
    MergeMisses(pages, root, own, contents, a, b, s);
  }

  method Fill() returns (tree: BPlusTree)
    ensures fresh(tree) && tree.Valid() && tree.MinFilled() && Consecutive(tree.contents, 0, 2 * MIN_LEAF + 1)
  {
    tree := new BPlusTree(1);
    for k := 0 to 2 * MIN_LEAF + 1
      invariant fresh(tree) && tree.Valid() && tree.MinFilled() && Consecutive(tree.contents, 0, k)
    {
      tree.Insert(k, RID(1, k));
    }
  }

  /** Takes away the one key more than two leaves at their minimum hold. */
  method Trim(tree: BPlusTree) returns (f: uint64)
    requires tree.Valid() && tree.MinFilled() && Consecutive(tree.contents, 0, 2 * MIN_LEAF + 1)
    modifies tree
    ensures tree.Valid() && tree.MinFilled() && tree.rootPageID in tree.own && tree.own[tree.rootPageID].height == 1
    ensures f <= 1 && Consecutive(tree.contents, f, 2 * MIN_LEAF)
  {
    ghost var _ := SpareKey(tree.pages, tree.rootPageID, tree.own, tree.contents, tree.numPages);
    var low := tree.pages[tree.rootPageID].keys[0] == MIN_LEAF;
    var found := tree.Delete(if low then 2 * MIN_LEAF else 0);
    return if low then 0 else 1;
  }

  method DeleteSeparator(tree: BPlusTree, f: uint64)
    requires tree.Valid() && tree.MinFilled() && tree.rootPageID in tree.own && tree.own[tree.rootPageID].height == 1
    requires f <= 1 && Consecutive(tree.contents, f, 2 * MIN_LEAF)
    modifies tree
    ensures tree.Broken()
  {
    MergeMissesSeparator(tree.pages, tree.rootPageID, tree.own, tree.contents, tree.numPages, f);
    DeleteAgainst(tree, f + MIN_LEAF);
  }

  /** A deletion that the tree does not survive. */
  method DeleteAgainst(tree: BPlusTree, key: uint64)
    requires tree.Valid() && key in tree.contents
    requires !DeleteKeepsTree(tree.pages, tree.rootPageID, tree.own, tree.contents, key)
    modifies tree
    ensures tree.Broken()
  {
    var found := tree.Delete(key);
  }

  /** 201 insertions and two deletions, from the empty tree: the pages are then no tree for any spans and contents. */
  method DeleteBreaksTree() returns (tree: BPlusTree)
    ensures fresh(tree) && tree.Broken()
  {
    tree := Fill();
    var f := Trim(tree);
    DeleteSeparator(tree, f);
  }

  // ---------- what goes wrong then ----------

  /** The keys met when the chain is followed for a number of leaves. */
  ghost function Listed(pages: Pages, id: PageId, steps: nat): seq<Key>
    decreases steps
  {
    if steps == 0 || id == 0 || id !in pages || !pages[id].Leaf? then []
    else pages[id].keys + Listed(pages, pages[id].next, steps - 1)
  }

  /** The leaf a has absorbed b, but the separator was missed, so that b is still routed to. */
  ghost function HalfMerged(pages: Pages, a: PageId, b: PageId): Pages
    requires a in pages && b in pages && pages[a].Leaf? && pages[b].Leaf? && pages[a].Shaped() && pages[b].Shaped()
  {
    pages[a := Absorb(pages[a], pages[b])]
  }

  /** Every leaf on the chain leads to a live leaf other than b, or ends it. */
  lemma ChainAvoids(pages: Pages, root: PageId, own: Spans, contents: map<Key, RID>, a: PageId, b: PageId, x: PageId)
    requires Settled(pages, root, own, contents) && a in own && b in own && a in pages && b in pages && pages[a].Leaf?
    requires pages[b].Leaf?
    requires own[a].hi == own[b].lo && pages[a].Shaped() && pages[b].Shaped() && x in own && x in pages
    requires pages[x].Leaf?
    ensures var next := HalfMerged(pages, a, b)[x].next;
            next == 0 || (next != b && next in own && next in pages && pages[next].Leaf?)
  {
    NextIsNeighbour(pages, root, own, contents, a, b);
    SpansNonempty(pages, own, contents);
    GroundIsLeaf(pages, own, own, contents);
    assert ChainHolds(pages, own, x) && ChainHolds(pages, own, b);
  }

  lemma {:induction false} NotListed(pages: Pages, root: PageId, own: Spans, contents: map<Key, RID>, a: PageId,
                                     b: PageId,
                                     n: Node, k: Key, x: PageId, steps: nat)
    requires Settled(pages, root, own, contents) && a in own && b in own && a in pages && b in pages && pages[a].Leaf?
    requires pages[b].Leaf?
    requires own[a].hi == own[b].lo && pages[a].WellFormed() && pages[b].WellFormed() && a != b && n.Leaf?
    requires k !in contents
    requires x == 0 || (x in own && x in pages && pages[x].Leaf? && x != b)
    ensures k !in Listed(HalfMerged(pages, a, b)[b := n], x, steps)
    decreases steps
  {
    var after := HalfMerged(pages, a, b)[b := n];
    if x == 0 {
      assert Listed(after, x, steps) == [];
    } else if steps > 0 {
      ChainAvoids(pages, root, own, contents, a, b, x);
      assert NodeHolds(pages, own, own, contents, x) && NodeHolds(pages, own, own, contents, a) && NodeHolds(pages,
                                                                                                             own, own,
                                                                                                             contents,
                                                                                                             b);
      NotListed(pages, root, own, contents, a, b, n, k, after[x].next, steps - 1);
      OwnedKeys(pages[x], own[x], contents, k);
      if x == a {
        InsertAllEntries(pages[a], pages[b]);
        OwnedKeys(pages[b], own[b], contents, k);
        assert after[a].keys == InsertAll(pages[a], pages[b], |pages[b].keys|).keys;
        assert k !in Entries(InsertAll(pages[a], pages[b], |pages[b].keys|));
      }
    }
  }

  /** A key inserted afterwards where the left-over page is routed to is found by a lookup, but no scan of the chain
      that starts at another leaf lists it. */
  lemma LookupAndScanDisagree(pages: Pages, root: PageId, own: Spans, contents: map<Key, RID>, p: PageId, i: nat,
                              b: PageId, k: Key, rid: RID)
    requires Settled(pages, root, own, contents) && UnderParent(pages, own, p, i, b) && i > 0
    requires own[b].lo <= k < own[b].hi && k !in contents
    ensures pages[b].Shaped() && pages[p].children[i - 1] in pages
    ensures pages[pages[p].children[i - 1]].Leaf? && pages[pages[p].children[i - 1]].Shaped()
    ensures var after := HalfMerged(pages, pages[p].children[i - 1], b)[b := LeafInsert(pages[b], k, rid)];
      && Route(after[p], k) == b && LeafLookup(after[b], k) == Some(rid)
      && forall x, steps :: x in own && x in pages && pages[x].Leaf? && x != b ==> k !in Listed(after, x, steps)
  {
    UnderIsSibling(pages, root, own, contents, p, i, b);
    var a := pages[p].children[i - 1];
    var after := HalfMerged(pages, a, b)[b := LeafInsert(pages[b], k, rid)];
    assert NodeHolds(pages, own, own, contents, p) && ChildHolds(pages, own, p, own[p], i);
    RouteSpan(pages, root, own, contents, p, k);
    LeafInsertIsMapUpdate(pages[b], k, rid);
    LookupIsEntries(after[b], k);
    forall x, steps: nat | x in own && x in pages && pages[x].Leaf? && x != b
      ensures k !in Listed(after, x, steps)
    {
      NotListed(pages, root, own, contents, a, b, LeafInsert(pages[b], k, rid), k, x, steps);
    }
  }

  /** What following the separators down from a page, for at most a number of steps, finds of a key. */
  ghost function Sought(pages: Pages, id: PageId, k: Key, steps: nat): Option<RID>
    decreases steps
  {
    if id !in pages || !pages[id].Shaped() then None
    else if pages[id].Leaf? then LeafLookup(pages[id], k)
    else if steps == 0 then None
    else Sought(pages, Route(pages[id], k), k, steps - 1)
  }

  /** As long as only leaves are rewritten, every search ends in the leaf that owned the key. */
  lemma {:induction false} SoughtInOwner(pages: Pages, after: Pages, root: PageId, own: Spans, contents: map<Key, RID>,
                                         b: PageId, id: PageId, k: Key, steps: nat)
    requires Settled(pages, root, own, contents) && RoutesUnchanged(pages, after, own)
    requires LeafReady(pages, own, contents, b, k)
    requires id in own && own[id].lo <= k < own[id].hi && after[b].Shaped()
    ensures Sought(after, id, k, steps) == if steps < own[id].height then None else LeafLookup(after[b], k)
    decreases steps
  {
    assert NodeHolds(pages, own, own, contents, id);
    if pages[id].Leaf? {
      assert LeafReady(pages, own, contents, id, k);
      OnlyLeafReady(pages, root, own, contents, b, k);
    } else if steps > 0 {
      RouteSpan(pages, root, own, contents, id, k);
      SoughtInOwner(pages, after, root, own, contents, b, Route(pages[id], k), k, steps - 1);
    }
  }

  /** In a tree a search that owns the key and takes enough steps finds what the map holds. */
  lemma {:induction false} SoughtIsFound(pages: Pages, root: PageId, own: Spans, contents: map<Key, RID>, id: PageId,
                                         k: Key,
                                         steps: nat)
    requires Settled(pages, root, own, contents) && id in own && own[id].lo <= k < own[id].hi && steps >= own[id].height
    ensures Sought(pages, id, k, steps) == if k in contents then Some(contents[k]) else None
    decreases steps
  {
    assert NodeHolds(pages, own, own, contents, id);
    if pages[id].Leaf? {
      LookupIsEntries(pages[id], k);
      assert k in Slice(contents, own[id].lo, own[id].hi) <==> k in contents;
    } else {
      RouteSpan(pages, root, own, contents, id, k);
      SoughtIsFound(pages, root, own, contents, Route(pages[id], k), k, steps - 1);
    }
  }

  /** The leaf a has borrowed the first entry of the next leaf b, which hangs under another parent. Searches from the
      root still end in b, which no longer holds the key: it is lost to every lookup, though another key was deleted. */
  lemma BorrowLosesKey(pages: Pages, root: PageId, own: Spans, contents: map<Key, RID>, a: PageId, b: PageId,
                       steps: nat)
    requires Settled(pages, root, own, contents) && root in own && a in own && b in own && a != b
    requires a in pages && b in pages && pages[a].Leaf? && pages[b].Leaf? && pages[a].Shaped() && pages[b].Shaped()
    requires |pages[b].keys| > MIN_LEAF
    ensures var k, rid := pages[b].keys[0], pages[b].rids[0];
      var after := pages[a := LeafInsert(pages[a], k, rid)][b := LeafDelete(pages[b], k)];
      k in contents && contents[k] == rid && Sought(after, root, k, steps) == None
  {
    var k, rid := pages[b].keys[0], pages[b].rids[0];
    var after := pages[a := LeafInsert(pages[a], k, rid)][b := LeafDelete(pages[b], k)];
    assert NodeHolds(pages, own, own, contents, b);
    EntryAt(pages[b], 0);
    OwnedKeys(pages[b], own[b], contents, k);
    SpansNonempty(pages, own, contents);
    GroundIsLeaf(pages, own, own, contents);
    assert LeafReady(pages, own, contents, b, k);
    SoughtInOwner(pages, after, root, own, contents, b, root, k, steps);
    LeafDeleteIsMapRemove(pages[b], k);
    LookupIsEntries(LeafDelete(pages[b], k), k);
  }
}
