/** What borrowing between sibling leaves and merging them does to a B+ tree. */
module TreeRebalance {
  import opened Types
  import opened Sequences
  import opened Nodes
  import opened TreeInvariant

  // ---------- removing one key from its leaf ----------

  lemma SliceRemove(c: map<Key, RID>, lo: Key, hi: Key, k: Key)
    ensures Slice(c - {k}, lo, hi) == Slice(c, lo, hi) - {k}
    ensures !(lo <= k < hi) ==> Slice(c - {k}, lo, hi) == Slice(c, lo, hi)
  {
  }

  lemma LeafDeleteKeepsNode(pages: Pages, own: Spans, contents: map<Key, RID>, id: PageId, k: Key, x: PageId)
    requires NodesHold(pages, own, own, contents) && Disjoint(own) && x in own
    requires id in own && id in pages && pages[id].WellFormed() && pages[id].Leaf? && own[id].lo <= k < own[id].hi
    ensures NodeHolds(pages[id := LeafDelete(pages[id], k)], own, own, contents - {k}, x)
  {
    assert NodeHolds(pages, own, own, contents, x);
    assert NodeHolds(pages, own, own, contents, id);
    if pages[x].Internal? {
      RouteFrame(pages, pages[id := LeafDelete(pages[id], k)], own, own, x, own[x]);
    } else {
      SliceRemove(contents, own[x].lo, own[x].hi, k);
      if x == id { LeafDeleteIsMapRemove(pages[id], k); }
    }
  }

  lemma LeafDeleteKeeps(pages: Pages, root: PageId, own: Spans, contents: map<Key, RID>, id: PageId, k: Key)
    requires Settled(pages, root, own, contents)
    requires id in own && id in pages && pages[id].WellFormed() && pages[id].Leaf? && own[id].lo <= k < own[id].hi
    ensures Settled(pages[id := LeafDelete(pages[id], k)], root, own, contents - {k})
  {
    LeafInsertKeepsChains(pages, root, own, id, LeafDelete(pages[id], k));
    forall x | x in own ensures NodeHolds(pages[id := LeafDelete(pages[id], k)], own, own, contents - {k}, x) {
      LeafDeleteKeepsNode(pages, own, contents, id, k, x);
    }
  }

  // ---------- neighbours ----------

  lemma SpansNonempty(pages: Pages, own: Spans, contents: map<Key, RID>)
    requires NodesHold(pages, own, own, contents)
    ensures forall x :: x in own ==> own[x].lo < own[x].hi
  {
  }

  /** The leaves a and b are the children i - 1 and i of the route p. */
  ghost predicate Siblings(pages: Pages, own: Spans, p: PageId, i: nat, a: PageId, b: PageId) {
    && p in own && p in pages && pages[p].Internal? && pages[p].Shaped() && 1 <= i < |pages[p].children|
    && pages[p].children[i - 1] == a && pages[p].children[i] == b
    && a in own && b in own && a in pages && b in pages && pages[a].Leaf? && pages[b].Leaf?
    && a != b && p != a && p != b
    && own[a].height == 0 && own[b].height == 0 && own[a].hi == own[b].lo == pages[p].keys[i - 1]
  }

  lemma SiblingsFromPosition(pages: Pages, root: PageId, own: Spans, contents: map<Key, RID>, p: PageId, i: nat)
    requires Settled(pages, root, own, contents)
    requires p in own && p in pages && pages[p].Internal? && 1 <= i < |pages[p].children| && own[p].height == 1
    ensures Siblings(pages, own, p, i, pages[p].children[i - 1], pages[p].children[i])
  {
    assert NodeHolds(pages, own, own, contents, p);
    assert ChildHolds(pages, own, p, own[p], i - 1) && ChildHolds(pages, own, p, own[p], i);
    GroundIsLeaf(pages, own, own, contents);
    ChildrenDistinct(pages, own, p, own[p], i - 1, i);
  }

  /** The leaf that starts where a ends follows it in the chain, and no other leaf leads there. */
  lemma NextIsNeighbour(pages: Pages, root: PageId, own: Spans, contents: map<Key, RID>, a: PageId, b: PageId)
    requires Settled(pages, root, own, contents)
    requires a in own && b in own && a in pages && b in pages && pages[a].Leaf? && pages[b].Leaf?
    requires own[a].hi == own[b].lo
    ensures pages[a].next == b
    ensures forall x :: x in own && x in pages && pages[x].Leaf? && pages[x].next == b ==> x == a
  {
  }

  lemma OnlyChildOf(pages: Pages, own: Spans, contents: map<Key, RID>, p: PageId, c: PageId, x: PageId)
    requires NodesHold(pages, own, own, contents)
    requires p in own && p in pages && pages[p].Internal? && c in pages[p].children
    requires x in own && x in pages && pages[x].Internal? && x != p
    ensures c !in pages[x].children
  {
    ChildrenAreLive(pages, own, own, contents, p);
    ChildrenAreLive(pages, own, own, contents, x);
  }

  // ---------- moving the boundary between two sibling leaves ----------

  ghost predicate SameHeader(n: Node, m: Node)
    requires n.Leaf? && m.Leaf?
  {
    n.isRoot == m.isRoot && n.parent == m.parent && n.next == m.next
  }

  ghost function MovedPages(pages: Pages, p: PageId, i: nat, na: Node, nb: Node, s: Key): Pages
    requires p in pages && pages[p].Internal? && pages[p].Shaped() && 1 <= i < |pages[p].children|
  {
    var n := pages[p];
    pages[n.children[i - 1] := na][n.children[i] := nb]
         [p := Internal(n.isRoot, n.parent, n.keys[i - 1 := s], n.children)]
  }

  ghost function MovedSpans(own: Spans, a: PageId, b: PageId, s: Key): Spans
    requires a in own && b in own
  {
    own[a := own[a].(hi := s)][b := own[b].(lo := s)]
  }

  /** na and nb are the leaves a and b after the boundary between them has moved to s. */
  ghost predicate Moved(pages: Pages, own: Spans, contents: map<Key, RID>, p: PageId, i: nat, na: Node, nb: Node,
                        s: Key)
    requires p in pages && pages[p].Internal? && pages[p].Shaped() && 1 <= i < |pages[p].children|
  {
    var a, b := pages[p].children[i - 1], pages[p].children[i];
    && Siblings(pages, own, p, i, a, b)
    && na.Leaf? && nb.Leaf? && na.WellFormed() && nb.WellFormed()
    && SameHeader(na, pages[a]) && SameHeader(nb, pages[b])
    && own[a].lo < s < own[b].hi
    && LeafHolds(na, own[a].(hi := s), contents) && LeafHolds(nb, own[b].(lo := s), contents)
  }

  lemma MovedKeepsParent(pages: Pages, own: Spans, contents: map<Key, RID>, p: PageId, i: nat, na: Node, nb: Node,
                         s: Key)
    requires p in pages && pages[p].Internal? && pages[p].Shaped() && 1 <= i < |pages[p].children|
    requires Moved(pages, own, contents, p, i, na, nb, s) && NodeHolds(pages, own, own, contents, p)
    ensures NodeHolds(MovedPages(pages, p, i, na, nb, s),
                      MovedSpans(own, pages[p].children[i - 1], pages[p].children[i], s),
                      MovedSpans(own, pages[p].children[i - 1], pages[p].children[i], s), contents, p)
  {
    var n := pages[p];
    var a, b := n.children[i - 1], n.children[i];
    var pages', own' := MovedPages(pages, p, i, na, nb, s), MovedSpans(own, a, b, s);
    assert ChildHolds(pages, own, p, own[p], i - 1) && ChildHolds(pages, own, p, own[p], i);
    assert i >= 2 ==> n.keys[i - 2] == own[a].lo;
    assert i < |n.keys| ==> n.keys[i] == own[b].hi;
    BoundaryKeepsSorted(n.keys, i - 1, s);
    forall j | 0 <= j < |n.children| ensures ChildHolds(pages', own', p, own'[p], j) {
      assert ChildHolds(pages, own, p, own[p], j);
      if j < i - 1 {
        ChildrenDistinct(pages, own, p, own[p], j, i - 1);
        ChildrenDistinct(pages, own, p, own[p], j, i);
      } else if j > i {
        ChildrenDistinct(pages, own, p, own[p], i - 1, j);
        ChildrenDistinct(pages, own, p, own[p], i, j);
      }
    }
  }

  lemma BoundaryKeepsSorted(keys: seq<Key>, i: nat, s: Key)
    requires Sorted(keys) && i < |keys| && (i > 0 ==> keys[i - 1] < s) && (i + 1 < |keys| ==> s < keys[i + 1])
    ensures Sorted(keys[i := s])
  {
  }

  lemma MovedKeepsOther(pages: Pages, own: Spans, contents: map<Key, RID>, p: PageId, i: nat, na: Node, nb: Node,
                        s: Key, x: PageId)
    requires p in pages && pages[p].Internal? && pages[p].Shaped() && 1 <= i < |pages[p].children|
    requires Moved(pages, own, contents, p, i, na, nb, s) && NodesHold(pages, own, own, contents)
    requires x in own && x != p
    ensures NodeHolds(MovedPages(pages, p, i, na, nb, s),
                      MovedSpans(own, pages[p].children[i - 1], pages[p].children[i], s),
                      MovedSpans(own, pages[p].children[i - 1], pages[p].children[i], s), contents, x)
  {
    var a, b := pages[p].children[i - 1], pages[p].children[i];
    assert NodeHolds(pages, own, own, contents, x);
    if x != a && x != b {
      if pages[x].Internal? {
        OnlyChildOf(pages, own, contents, p, a, x);
        OnlyChildOf(pages, own, contents, p, b, x);
      }
      NodeFrame(pages, MovedPages(pages, p, i, na, nb, s), own, MovedSpans(own, a, b, s), own,
                MovedSpans(own, a, b, s), contents, x);
    }
  }

  lemma MovedSpansHold(root: PageId, own: Spans, a: PageId, b: PageId, s: Key)
    requires SpansHold(root, own, own) && a in own && b in own && a != b && a != root && b != root
    requires own[a].height == own[b].height && own[a].hi == own[b].lo && own[a].lo < s < own[b].hi
    requires forall x :: x in own ==> own[x].lo < own[x].hi
    ensures SpansHold(root, MovedSpans(own, a, b, s), MovedSpans(own, a, b, s))
  {
  }

  lemma MovedKeepsChains(pages: Pages, root: PageId, own: Spans, contents: map<Key, RID>, p: PageId, i: nat, na: Node,
                         nb: Node, s: Key)
    requires p in pages && pages[p].Internal? && pages[p].Shaped() && 1 <= i < |pages[p].children|
    requires Moved(pages, own, contents, p, i, na, nb, s) && Settled(pages, root, own, contents)
    ensures var own' := MovedSpans(own, pages[p].children[i - 1], pages[p].children[i], s);
      ChainsHold(MovedPages(pages, p, i, na, nb, s), own') && RootMarked(MovedPages(pages, p, i, na, nb, s), root, own')
  {
    var a, b := pages[p].children[i - 1], pages[p].children[i];
    var pages', own' := MovedPages(pages, p, i, na, nb, s), MovedSpans(own, a, b, s);
    NextIsNeighbour(pages, root, own, contents, a, b);
    forall x | x in own' && x in pages' && pages'[x].Leaf? ensures ChainHolds(pages', own', x) {
      assert ChainHolds(pages, own, x);
    }
  }

  lemma MovedSettles(pages: Pages, root: PageId, own: Spans, contents: map<Key, RID>, p: PageId, i: nat, na: Node,
                     nb: Node, s: Key)
    requires p in pages && pages[p].Internal? && pages[p].Shaped() && 1 <= i < |pages[p].children|
    requires Moved(pages, own, contents, p, i, na, nb, s) && Settled(pages, root, own, contents)
    ensures Settled(MovedPages(pages, p, i, na, nb, s), root,
                    MovedSpans(own, pages[p].children[i - 1], pages[p].children[i], s), contents)
  {
    var a, b := pages[p].children[i - 1], pages[p].children[i];
    var own' := MovedSpans(own, a, b, s);
    assert NodeHolds(pages, own, own, contents, a) && NodeHolds(pages, own, own, contents, b) && NodeHolds(pages, own,
                                                                                                           own,
                                                                                                           contents, p);
    SpansNonempty(pages, own, contents);
    MovedSpansHold(root, own, a, b, s);
    MovedKeepsChains(pages, root, own, contents, p, i, na, nb, s);
    forall x | x in own' ensures NodeHolds(MovedPages(pages, p, i, na, nb, s), own', own', contents, x) {
      if x == p {
        MovedKeepsParent(pages, own, contents, p, i, na, nb, s);
      } else {
        MovedKeepsOther(pages, own, contents, p, i, na, nb, s, x);
      }
    }
  }

  // ---------- merging a leaf into its left sibling ----------

  /** The merged leaf replaces both siblings; the page of the right one is no longer part of the tree. */
  ghost function MergedPages(pages: Pages, p: PageId, i: nat, na: Node): Pages
    requires p in pages && pages[p].Internal? && pages[p].Shaped() && 1 <= i < |pages[p].children|
  {
    var n := pages[p];
    pages[n.children[i - 1] := na][p := Internal(n.isRoot, n.parent, RemoveAt(n.keys, i - 1), RemoveAt(n.children, i))]
  }

  ghost function MergedSpans(own: Spans, a: PageId, b: PageId): Spans
    requires a in own && b in own
  {
    own[a := own[a].(hi := own[b].hi)] - {b}
  }

  ghost predicate Merged(pages: Pages, own: Spans, contents: map<Key, RID>, p: PageId, i: nat, na: Node)
    requires p in pages && pages[p].Internal? && pages[p].Shaped() && 1 <= i < |pages[p].children|
  {
    var a, b := pages[p].children[i - 1], pages[p].children[i];
    && Siblings(pages, own, p, i, a, b)
    && na.Leaf? && na.WellFormed()
    && na.isRoot == pages[a].isRoot && na.parent == pages[a].parent && na.next == pages[b].next
    && LeafHolds(na, own[a].(hi := own[b].hi), contents)
  }

  /** Dropping child i and the key before it joins the spans of children i - 1 and i. */
  lemma RouteRemoveSpans(n: Node, m: Node, s: Span, i: nat, j: nat)
    requires n.Internal? && n.Shaped() && s.height > 0 && 1 <= i < |n.children| && j < |n.children| - 1
    requires m.Internal? && m.keys == RemoveAt(n.keys, i - 1) && m.children == RemoveAt(n.children, i)
    ensures m.Shaped()
    ensures j < i - 1 ==> m.children[j] == n.children[j] && ChildSpan(m, s, j) == ChildSpan(n, s, j)
    ensures j == i - 1 ==>
      m.children[j] == n.children[j] && ChildSpan(m, s, j) == ChildSpan(n, s, j).(hi := ChildSpan(n, s, i).hi)
    ensures j >= i ==> m.children[j] == n.children[j + 1] && ChildSpan(m, s, j) == ChildSpan(n, s, j + 1)
  {
  }

  lemma MergedKeepsChild(pages: Pages, own: Spans, contents: map<Key, RID>, p: PageId, i: nat, na: Node, j: nat)
    requires p in pages && pages[p].Internal? && pages[p].WellFormed() && 1 <= i < |pages[p].children|
    requires Merged(pages, own, contents, p, i, na) && RouteHolds(pages, own, p, own[p]) && j < |pages[p].children| - 1
    ensures MergedPages(pages, p, i, na)[p].Shaped()
    ensures var own' := MergedSpans(own, pages[p].children[i - 1], pages[p].children[i]);
      ChildHolds(MergedPages(pages, p, i, na), own', p, own[p], j)
  {
    var n := pages[p];
    RouteRemoveSpans(n, MergedPages(pages, p, i, na)[p], own[p], i, j);
    assert ChildHolds(pages, own, p, own[p], i - 1) && ChildHolds(pages, own, p, own[p], i);
    if j < i - 1 {
      assert ChildHolds(pages, own, p, own[p], j);
      ChildrenDistinct(pages, own, p, own[p], j, i - 1);
      ChildrenDistinct(pages, own, p, own[p], j, i);
    } else if j >= i {
      assert ChildHolds(pages, own, p, own[p], j + 1);
      ChildrenDistinct(pages, own, p, own[p], i - 1, j + 1);
      ChildrenDistinct(pages, own, p, own[p], i, j + 1);
    }
  }

  lemma MergedKeepsParent(pages: Pages, own: Spans, contents: map<Key, RID>, p: PageId, i: nat, na: Node)
    requires p in pages && pages[p].Internal? && pages[p].Shaped() && 1 <= i < |pages[p].children|
    requires Merged(pages, own, contents, p, i, na) && NodeHolds(pages, own, own, contents, p)
    ensures var own' := MergedSpans(own, pages[p].children[i - 1], pages[p].children[i]);
      NodeHolds(MergedPages(pages, p, i, na), own', own', contents, p)
  {
    var own' := MergedSpans(own, pages[p].children[i - 1], pages[p].children[i]);
    var m := MergedPages(pages, p, i, na)[p];
    SortedRemove(pages[p].keys, i - 1);
    forall j | 0 <= j < |m.children| ensures ChildHolds(MergedPages(pages, p, i, na), own', p, own[p], j) {
      MergedKeepsChild(pages, own, contents, p, i, na, j);
    }
    forall j | 0 <= j < |m.keys| ensures own[p].lo < m.keys[j] < own[p].hi {
      RemoveAtElement(pages[p].keys, i - 1, j);
    }
  }

  lemma MergedKeepsOther(pages: Pages, own: Spans, contents: map<Key, RID>, p: PageId, i: nat, na: Node, x: PageId)
    requires p in pages && pages[p].Internal? && pages[p].Shaped() && 1 <= i < |pages[p].children|
    requires Merged(pages, own, contents, p, i, na) && NodesHold(pages, own, own, contents)
    requires x in own && x != p && x != pages[p].children[i]
    ensures var own' := MergedSpans(own, pages[p].children[i - 1], pages[p].children[i]);
      NodeHolds(MergedPages(pages, p, i, na), own', own', contents, x)
  {
    var a, b := pages[p].children[i - 1], pages[p].children[i];
    assert NodeHolds(pages, own, own, contents, x) && NodeHolds(pages, own, own, contents, b);
    if x != a {
      if pages[x].Internal? {
        OnlyChildOf(pages, own, contents, p, a, x);
        OnlyChildOf(pages, own, contents, p, b, x);
      }
      NodeFrame(pages, MergedPages(pages, p, i, na), own, MergedSpans(own, a, b), own, MergedSpans(own, a, b),
                contents, x);
    }
  }

  lemma MergedSpansHold(root: PageId, own: Spans, a: PageId, b: PageId)
    requires SpansHold(root, own, own) && a in own && b in own && a != b && a != root && b != root
    requires own[a].height == own[b].height && own[a].hi == own[b].lo
    requires forall x :: x in own ==> own[x].lo < own[x].hi
    ensures SpansHold(root, MergedSpans(own, a, b), MergedSpans(own, a, b))
  {
  }

  lemma MergedKeepsChains(pages: Pages, root: PageId, own: Spans, contents: map<Key, RID>, p: PageId, i: nat, na: Node)
    requires p in pages && pages[p].Internal? && pages[p].Shaped() && 1 <= i < |pages[p].children|
    requires Merged(pages, own, contents, p, i, na) && Settled(pages, root, own, contents)
    ensures var own' := MergedSpans(own, pages[p].children[i - 1], pages[p].children[i]);
      ChainsHold(MergedPages(pages, p, i, na), own') && RootMarked(MergedPages(pages, p, i, na), root, own')
  {
  }

  lemma MergedSettles(pages: Pages, root: PageId, own: Spans, contents: map<Key, RID>, p: PageId, i: nat, na: Node)
    requires p in pages && pages[p].Internal? && pages[p].Shaped() && 1 <= i < |pages[p].children|
    requires Merged(pages, own, contents, p, i, na) && Settled(pages, root, own, contents)
    ensures Settled(MergedPages(pages, p, i, na), root,
                    MergedSpans(own, pages[p].children[i - 1], pages[p].children[i]), contents)
  {
    var a, b := pages[p].children[i - 1], pages[p].children[i];
    var own' := MergedSpans(own, a, b);
    assert NodeHolds(pages, own, own, contents, a) && NodeHolds(pages, own, own, contents, b) && NodeHolds(pages, own,
                                                                                                           own,
                                                                                                           contents, p);
    SpansNonempty(pages, own, contents);
    MergedSpansHold(root, own, a, b);
    MergedKeepsChains(pages, root, own, contents, p, i, na);
    forall x | x in own' ensures NodeHolds(MergedPages(pages, p, i, na), own', own', contents, x) {
      if x == p {
        MergedKeepsParent(pages, own, contents, p, i, na);
      } else {
        MergedKeepsOther(pages, own, contents, p, i, na, x);
      }
    }
  }
}
