/** How full the leaves of a B+ tree stay, through insertions and deletions alike: a leaf below its minimum is the root
    or the only child of its parent. */
module TreeFill {
  import opened Types
  import opened Sequences
  import opened Nodes
  import opened TreeInvariant
  import opened TreeRebalance
  import opened TreeDelete

  ghost predicate LeafFilled(n: Node) {
    n.Leaf? ==> |n.keys| >= MIN_LEAF
  }

  /** A route with a separator has no leaf below its minimum among its children, those in spare apart. */
  ghost predicate RouteFilled(pages: Pages, p: PageId, spare: set<PageId>)
    requires p in pages
  {
    pages[p].Internal? && pages[p].keys != [] ==>
      forall c :: c in pages[p].children && c in pages && c !in spare ==> LeafFilled(pages[c])
  }

  ghost predicate LeavesFilled(pages: Pages, own: Spans, spare: set<PageId>) {
    forall p :: p in own && p in pages ==> RouteFilled(pages, p, spare)
  }

  /** While a split is in flight both halves are filled, wherever the right one will hang. */
  ghost predicate SplitFilled(pages: Pages, own: Spans, left: PageId, right: PageId) {
    LeavesFilled(pages, own,
                 {}) && left in pages && right in pages && LeafFilled(pages[left]) && LeafFilled(pages[right])
  }

  // ---------- one leaf rewritten ----------

  lemma GrownLeafFills(pages: Pages, own: Spans, id: PageId, n: Node)
    requires LeavesFilled(pages, own, {}) && id in pages && pages[id].Leaf? && n.Leaf? && |pages[id].keys| <= |n.keys|
    ensures LeavesFilled(pages[id := n], own, {})
  {
    forall p | p in own && p in pages[id := n]
      ensures RouteFilled(pages[id := n], p, {})
    {
      assert p != id ==> RouteFilled(pages, p, {});
    }
  }

  lemma ShrunkLeafFills(pages: Pages, own: Spans, id: PageId, n: Node)
    requires LeavesFilled(pages, own, {}) && id in pages && pages[id].Leaf? && n.Leaf?
    ensures LeavesFilled(pages[id := n], own, if |n.keys| >= MIN_LEAF then {} else {id})
  {
    var spare := if |n.keys| >= MIN_LEAF then {} else {id};
    forall p | p in own && p in pages[id := n]
      ensures RouteFilled(pages[id := n], p, spare)
    {
      assert p != id ==> RouteFilled(pages, p, {});
    }
  }

  /** A leaf that no route with a separator leads to may hold as little as it likes. */
  lemma SpareNotNeeded(pages: Pages, root: PageId, own: Spans, contents: map<Key, RID>, p: PageId, i: nat, id: PageId)
    requires Settled(pages, root, own, contents) && UnderParent(pages, own, p, i, id) && pages[p].keys == []
    requires LeavesFilled(pages, own, {id})
    ensures LeavesFilled(pages, own, {})
  {
    forall q | q in own && q in pages
      ensures RouteFilled(pages, q, {})
    {
      assert RouteFilled(pages, q, {id});
      if pages[q].Internal? && q != p {
        OnlyChildOf(pages, own, contents, p, id, q);
      }
    }
  }

  lemma RootNeedsNoSpare(pages: Pages, root: PageId, own: Spans, contents: map<Key, RID>)
    requires Settled(pages, root, own, contents) && root in pages && pages[root].Leaf?
    ensures LeavesFilled(pages, own, {})
  {
    GroundIsLeaf(pages, own, own, contents);
  }

  /** Where there are siblings, all of them are filled. */
  lemma SiblingsFilled(pages: Pages, own: Spans, p: PageId, spare: set<PageId>)
    requires LeavesFilled(pages, own, spare) && p in own && p in pages && pages[p].Internal? && pages[p].Shaped()
    requires pages[p].keys != []
    ensures forall j :: 0 <= j < |pages[p].children| && pages[p].children[j] in pages && pages[p].children[j] !in spare
                    ==> LeafFilled(pages[pages[p].children[j]])
  {
    assert RouteFilled(pages, p, spare);
    forall j | 0 <= j < |pages[p].children| && pages[p].children[j] in pages && pages[p].children[j] !in spare
      ensures LeafFilled(pages[pages[p].children[j]])
    {
      var c := pages[p].children[j];
      assert c in pages[p].children;
    }
  }

  // ---------- splits ----------

  lemma SplitLeafFills(pages: Pages, own: Spans, own': Spans, id: PageId, l: Node, r: Node, newID: PageId)
    requires LeavesFilled(pages, own, {}) && own'.Keys == own.Keys + {newID} && id in pages && pages[id].Leaf?
    requires l.Leaf? && r.Leaf? && LeafFilled(l) && LeafFilled(r) && newID !in pages
    ensures SplitFilled(pages[id := l][newID := r], own', id, newID)
  {
    forall p | p in own' && p in pages[id := l][newID := r]
      ensures RouteFilled(pages[id := l][newID := r], p, {})
    {
      assert p != id && p != newID ==> RouteFilled(pages, p, {});
    }
  }

  /** The route p takes in the right half of its child left. */
  lemma LinkFills(pages: Pages, own: Spans, left: PageId, right: PageId, p: PageId, k: Key)
    requires SplitFilled(pages, own, left, right) && p in own && p in pages && pages[p].Internal? && pages[p].Shaped()
    requires left in pages[p].children
    ensures LeavesFilled(SetParents(pages, [right], p)[p := RouteInsert(pages[p], k, right)], own, {})
  {
    var pages' := SetParents(pages, [right], p)[p := RouteInsert(pages[p], k, right)];
    forall q | q in own && q in pages'
      ensures RouteFilled(pages', q, {})
    {
      assert RouteFilled(pages, q, {});
      if q == p {
        InsertAtMembers(pages[p].children, FirstAtLeast(pages[p].keys, k) + 1, right);
        assert pages[p].keys == [] ==> pages[p].children == [left];
      }
    }
  }

  /** A full route splits into l and r, and one of them takes the page c. */
  lemma SplitRouteFills(pages: Pages, own: Spans, own': Spans, p: PageId, c: PageId, l: Node, r: Node, newID: PageId)
    requires LeavesFilled(pages, own, {}) && own'.Keys == own.Keys + {newID} && newID !in pages
    requires p in own && p in pages && pages[p].Internal? && pages[p].keys != [] && c in pages && LeafFilled(pages[c])
    requires l.Internal? && r.Internal? && forall x :: x in l.children || x in r.children ==>
      x in pages[p].children || x == c
    ensures SplitFilled(SetParents(SetParents(pages, [c], p)[p := l][newID := r], r.children, newID), own', p, newID)
  {
    var pages' := SetParents(SetParents(pages, [c], p)[p := l][newID := r], r.children, newID);
    assert RouteFilled(pages, p, {});
    forall q | q in own' && q in pages'
      ensures RouteFilled(pages', q, {})
    {
      if q != p && q != newID {
        assert RouteFilled(pages, q, {});
      }
    }
  }

  lemma NewRootFills(pages: Pages, own: Spans, own': Spans, left: PageId, key: Key, right: PageId, newID: PageId)
    requires SplitFilled(pages, own, left, right) && own'.Keys == own.Keys + {newID} && newID !in pages
    ensures LeavesFilled(NewRootPages(pages, left, key, right, newID), own', {})
  {
    var pages' := NewRootPages(pages, left, key, right, newID);
    forall q | q in own' && q in pages'
      ensures RouteFilled(pages', q, {})
    {
      if q != newID {
        assert RouteFilled(pages, q, {});
      }
    }
  }

  // ---------- rebalancing ----------

  lemma MovedFills(pages: Pages, own: Spans, own': Spans, p: PageId, i: nat, na: Node, nb: Node, s: Key,
                   spare: set<PageId>)
    requires p in pages && pages[p].Internal? && pages[p].Shaped() && 1 <= i < |pages[p].children|
    requires pages[p].children[i - 1] != p && pages[p].children[i] != p && na.Leaf? && nb.Leaf? && LeafFilled(na)
    requires LeafFilled(nb)
    requires LeavesFilled(pages, own, spare) && own'.Keys <= own.Keys
    requires spare <= {pages[p].children[i - 1], pages[p].children[i]}
    ensures LeavesFilled(MovedPages(pages, p, i, na, nb, s), own', {})
  {
    var pages' := MovedPages(pages, p, i, na, nb, s);
    forall q | q in own' && q in pages'
      ensures RouteFilled(pages', q, {})
    {
      if pages'[q].Internal? {
        assert RouteFilled(pages, q, spare);
      }
    }
  }

  lemma MergedFills(pages: Pages, own: Spans, own': Spans, p: PageId, i: nat, na: Node, spare: set<PageId>)
    requires p in pages && pages[p].Internal? && pages[p].Shaped() && 1 <= i < |pages[p].children|
    requires pages[p].children[i - 1] != p && na.Leaf? && LeafFilled(na)
    requires LeavesFilled(pages, own, spare) && own'.Keys <= own.Keys && pages[p].children[i] !in own'
    requires spare <= {pages[p].children[i - 1], pages[p].children[i]}
    requires forall q :: q in own' && q in pages && pages[q].Internal? && q != p ==>
      pages[p].children[i] !in pages[q].children
    requires forall j :: 0 <= j < |pages[p].children| && j != i ==> pages[p].children[j] != pages[p].children[i]
    ensures LeavesFilled(MergedPages(pages, p, i, na), own', {})
  {
    var pages' := MergedPages(pages, p, i, na);
    var n := pages[p];
    forall q | q in own' && q in pages'
      ensures RouteFilled(pages', q, {})
    {
      if pages'[q].Internal? {
        assert RouteFilled(pages, q, spare);
        if q == p {
          assert n.keys != [];
          forall c | c in RemoveAt(n.children, i)
            ensures c in n.children && c != n.children[i]
          {
            var j :| 0 <= j < |n.children| - 1 && RemoveAt(n.children, i)[j] == c;
            RemoveAtElement(n.children, i, j);
          }
        }
      }
    }
  }

  // ---------- counting ----------

  lemma SliceSplits(c: map<Key, RID>, lo: Key, mid: Key, hi: Key)
    requires lo <= mid <= hi
    ensures |Slice(c, lo, hi)| == |Slice(c, lo, mid)| + |Slice(c, mid, hi)|
  {
    var a, b := Slice(c, lo, mid).Keys, Slice(c, mid, hi).Keys;
    assert Slice(c, lo, hi).Keys == a + b;
    assert |a + b| == |a| + |b|;
    assert |Slice(c, lo, hi)| == |Slice(c, lo, hi).Keys|;
  }

  lemma LeafCount(n: Node, s: Span, contents: map<Key, RID>)
    requires n.Leaf? && n.WellFormed() && LeafHolds(n, s, contents)
    ensures |n.keys| == |Slice(contents, s.lo, s.hi)|
  {
    DistinctCount(n.keys);
    assert |Entries(n)| == |Entries(n).Keys|;
  }

  /** Two neighbouring leaves merged hold as many entries as both did. */
  lemma MergedCount(n: Node, m: Node, na: Node, s: Span, t: Span, contents: map<Key, RID>)
    requires n.Leaf? && n.WellFormed() && LeafHolds(n, s, contents) && m.Leaf? && m.WellFormed()
    requires LeafHolds(m, t, contents)
    requires na.Leaf? && na.WellFormed() && s.lo <= s.hi == t.lo <= t.hi && LeafHolds(na, s.(hi := t.hi), contents)
    ensures |na.keys| == |n.keys| + |m.keys|
  {
    LeafCount(n, s, contents);
    LeafCount(m, t, contents);
    LeafCount(na, s.(hi := t.hi), contents);
    SliceSplits(contents, s.lo, s.hi, t.hi);
  }
}
