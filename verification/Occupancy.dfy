/** How many keys a tree built by insertion holds, from its height. */
module Occupancy {
  import opened Types
  import opened Sequences
  import opened Nodes
  import opened TreeInvariant
  import opened TreeFill
  import opened BPlusTrees

  function Power(e: nat): (p: nat)
    ensures p > 0
  {
    if e == 0 then 1 else MIN_LEAF * Power(e - 1)
  }

  /** Below a page of height h that is not the root lie at least 100^(h+1) keys. */
  lemma {:induction false} KeysBelow(pages: Pages, root: PageId, own: Spans, contents: map<Key, RID>, id: PageId)
    requires Settled(pages, root, own, contents) && Filled(pages, root, own)
    requires id in own && id != root
    ensures |Slice(contents, own[id].lo, own[id].hi)| >= Power(own[id].height + 1)
    decreases own[id].height, 1, 0
  {
    assert NodeHolds(pages, own, own, contents, id);
    if pages[id].Leaf? {
      LeafCount(pages[id], own[id], contents);
      assert Power(1) == MIN_LEAF * Power(0);
    } else {
      ChildrenSum(pages, root, own, contents, id, |pages[id].children|);
      ScaleUp(|pages[id].children|, MIN_LEAF, Power(own[id].height));
    }
  }

  lemma ScaleUp(n: nat, m: nat, p: nat)
    requires n >= m
    ensures n * p >= m * p
  {
  }

  /** The first n children of a route together hold n times what each holds at least. */
  lemma {:induction false} ChildrenSum(pages: Pages, root: PageId, own: Spans, contents: map<Key, RID>, id: PageId,
                                       n: nat)
    requires Settled(pages, root, own, contents) && Filled(pages, root, own)
    requires id in own && id in pages && pages[id].Internal? && pages[id].Shaped() && own[id].height > 0
    requires 1 <= n <= |pages[id].children|
    ensures |Slice(contents, own[id].lo, ChildSpan(pages[id], own[id], n - 1).hi)| >= n * Power(own[id].height)
    decreases own[id].height, 0, n
  {
    assert NodeHolds(pages, own, own, contents, id);
    var s, c := own[id], pages[id].children[n - 1];
    assert ChildHolds(pages, own, id, s, n - 1);
    var p := Power(s.height);
    assert |Slice(contents, own[c].lo, own[c].hi)| >= p by { KeysBelow(pages, root, own, contents, c); }
    OneMore(n, p);
    if n > 1 {
      ChildrenSum(pages, root, own, contents, id, n - 1);
      SliceSplits(contents, s.lo, own[c].lo, own[c].hi);
    }
  }

  lemma OneMore(n: nat, p: nat)
    requires n > 0
    ensures n * p == (n - 1) * p + p
  {
  }

  /** A tree with at least two levels, its root at height h, holds at least 2 * 100^h keys. */
  lemma TreeIsDense(pages: Pages, root: PageId, own: Spans, contents: map<Key, RID>)
    requires Settled(pages, root, own, contents) && Filled(pages, root, own)
    requires root in own && own[root].height > 0
    ensures |contents| >= 2 * Power(own[root].height)
  {
    assert NodeHolds(pages, own, own, contents, root);
    ChildrenSum(pages, root, own, contents, root, |pages[root].children|);
    ScaleUp(|pages[root].children|, 2, Power(own[root].height));
    var all := Slice(contents, 0, TWO_TO_64);
    assert all.Keys <= contents.Keys;
    SubsetSize(all.Keys, contents.Keys);
    assert |all| == |all.Keys| && |contents| == |contents.Keys|;
  }

  lemma SubsetSize<T>(a: set<T>, b: set<T>)
    requires a <= b
    ensures |a| <= |b|
  {
    assert b == a + (b - a);
  }
}
