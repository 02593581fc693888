/** Streaming range scans over the leaf chain, and the paginated scans built on them. */
module Cursors {
  import opened Types
  import opened Sequences
  import opened Nodes
  import opened TreeInvariant
  import opened TreeRebalance
  import opened TreeDelete
  import opened BPlusTrees

  datatype NextResult = Item(key: Key, rid: RID) | Done | Modified

  ghost predicate NoKeys<T>(contents: map<Key, T>, lo: Key, hi: Key) {
    forall k :: k in contents ==> !(lo <= k < hi)
  }

  /** The leaf at id offers, from slot i on, exactly the keys of its span that are at least from. */
  ghost predicate At(pages: Pages, own: Spans, contents: map<Key, RID>, id: PageId, i: nat, from: Key) {
    && id in own && id in pages && pages[id].Leaf? && NodeHolds(pages, own, own, contents, id)
    && i <= |pages[id].keys| && from <= own[id].hi
    && (forall j :: 0 <= j < i ==> pages[id].keys[j] < from)
    && (forall j :: i <= j < |pages[id].keys| ==> from <= pages[id].keys[j])
    && (own[id].lo <= from || i == 0)
    && NoKeys(contents, from, own[id].lo)
  }

  lemma OwnedKeyIsInLeaf(pages: Pages, own: Spans, contents: map<Key, RID>, id: PageId, k: Key)
    requires id in own && id in pages && pages[id].Leaf? && NodeHolds(pages, own, own, contents, id)
    requires k in contents && own[id].lo <= k < own[id].hi
    ensures exists j :: 0 <= j < |pages[id].keys| && pages[id].keys[j] == k
  {
    assert k in Slice(contents, own[id].lo, own[id].hi);
    assert k in Entries(pages[id]);
  }

  lemma AtSlot(pages: Pages, own: Spans, contents: map<Key, RID>, id: PageId, i: nat, from: Key)
    requires At(pages, own, contents, id, i, from) && i < |pages[id].keys|
    ensures var n := pages[id];
      && n.keys[i] in contents && contents[n.keys[i]] == n.rids[i] && from <= n.keys[i]
      && NoKeys(contents, from, n.keys[i])
      && At(pages, own, contents, id, i + 1, n.keys[i] + 1)
  {
    var n, s := pages[id], own[id];
    EntryAt(n, i);
    assert Entries(n) == Slice(contents, s.lo, s.hi);
    forall k | k in contents ensures !(from <= k < n.keys[i]) {
      if s.lo <= k < s.hi { OwnedKeyIsInLeaf(pages, own, contents, id, k); }
    }
  }

  lemma AtEnd(pages: Pages, own: Spans, contents: map<Key, RID>, id: PageId, from: Key)
    requires id in pages && At(pages, own, contents, id, |pages[id].keys|, from)
    ensures NoKeys(contents, from, own[id].hi)
  {
    forall k | k in contents ensures !(from <= k < own[id].hi) {
      if own[id].lo <= k < own[id].hi { OwnedKeyIsInLeaf(pages, own, contents, id, k); }
    }
  }

  lemma AtNextLeaf(pages: Pages, root: PageId, own: Spans, contents: map<Key, RID>, id: PageId, from: Key)
    requires Settled(pages, root, own, contents)
    requires id in pages && At(pages, own, contents, id, |pages[id].keys|, from) && pages[id].next != 0
    ensures At(pages, own, contents, pages[id].next, 0, from)
    ensures own[id].lo < own[pages[id].next].lo < TWO_TO_64
  {
    var next := pages[id].next;
    assert ChainHolds(pages, own, id);
    assert NodeHolds(pages, own, own, contents, next);
    AtEnd(pages, own, contents, id, from);
    forall j | 0 <= j < |pages[next].keys| ensures from <= pages[next].keys[j] {
      assert pages[next].keys[j] in Entries(pages[next]);
    }
  }

  // ---------- writes that leave the epoch alone ----------

  /** A key written at or after from, or in another leaf, leaves the cursor where it is; a new key before from in the
      cursor's own leaf moves the slots, and the cursor would yield an entry again. */
  lemma InsertKeepsCursor(pages: Pages, root: PageId, own: Spans, contents: map<Key, RID>, written: PageId, k: Key,
                          rid: RID, id: PageId, i: nat, from: Key)
    requires Settled(pages, root, own, contents) && At(pages, own, contents, id, i, from) && own[id].lo <= from
    requires LeafReady(pages, own, contents, written, k) && k < TWO_TO_64
    ensures var pages' := pages[written := LeafInsert(pages[written], k, rid)];
      && (At(pages', own, contents[k := rid], id, i, from) <==>
         !(own[id].lo <= k < from && k < own[id].hi && k !in contents))
      && (!At(pages', own, contents[k := rid], id, i, from) ==> i < |pages'[id].keys| && pages'[id].keys[i] < from)
  {
    LeafInsertKeeps(pages, root, own, own, contents, written, k, rid);
    OnlyLeafReady(pages, root, own, contents, written, k);
    var pages' := pages[written := LeafInsert(pages[written], k, rid)];
    assert NodeHolds(pages', own, own, contents[k := rid], id);
    if written == id {
      InsertedSlots(pages[id], own[id], contents, k, rid, i, from);
    } else {
      assert !(own[id].lo <= k < own[id].hi);
    }
  }

  lemma InsertedKeepsCursor(pages: Pages, pages': Pages, root: PageId, own: Spans, contents: map<Key, RID>, k: Key,
                            rid: RID, id: PageId, i: nat, from: Key)
    requires Settled(pages, root, own, contents) && At(pages, own, contents, id, i, from) && own[id].lo <= from
    requires OnlyInserted(pages, pages', own, contents, k, rid) && k < TWO_TO_64
    ensures At(pages', own, contents[k := rid], id, i, from) <==>
      !(own[id].lo <= k < from && k < own[id].hi && k !in contents)
    ensures id in pages' && pages'[id].Leaf?
  {
    var written :|
      LeafReady(pages, own, contents, written, k) && pages' == pages[written := LeafInsert(pages[written], k, rid)];
    InsertKeepsCursor(pages, root, own, contents, written, k, rid, id, i, from);
  }

  lemma InsertedSlots(n: Node, s: Span, contents: map<Key, RID>, k: Key, rid: RID, i: nat, from: Key)
    requires n.Leaf? && n.WellFormed() && LeafHolds(n, s, contents) && s.lo <= k < s.hi && i <= |n.keys|
    requires (forall j :: 0 <= j < i ==> n.keys[j] < from) && (forall j :: i <= j < |n.keys| ==> from <= n.keys[j])
    ensures var m := LeafInsert(n, k, rid);
      if k in contents then m.keys == n.keys
      else if k < from then i < |m.keys| && m.keys[i] < from
      else i <= |m.keys| && (forall j :: 0 <= j < i ==> m.keys[j] < from)
           && (forall j :: i <= j < |m.keys| ==> from <= m.keys[j])
  {
    OwnedKeys(n, s, contents, k);
    if k in n.keys { FirstAtLeastFinds(n.keys, k); }
    var p := FirstAtLeast(n.keys, k);
    if p < |n.keys| { assert n.keys[p] in n.keys; }
  }

  lemma DeleteKeepsCursor(pages: Pages, root: PageId, own: Spans, contents: map<Key, RID>, written: PageId, k: Key,
                          id: PageId, i: nat, from: Key)
    requires Settled(pages, root, own, contents) && At(pages, own, contents, id, i, from) && own[id].lo <= from
    requires LeafReady(pages, own, contents, written, k) && k in contents
    ensures var pages' := pages[written := LeafDelete(pages[written], k)];
      && (At(pages', own, contents - {k}, id, i, from) <==> !(own[id].lo <= k < from && k < own[id].hi))
      && (!At(pages', own, contents - {k}, id, i, from) && i < |pages[id].keys| ==>
           0 < i <= |pages'[id].keys| && pages'[id].keys[i - 1] == pages[id].keys[i])
  {
    LeafDeleteKeeps(pages, root, own, contents, written, k);
    OnlyLeafReady(pages, root, own, contents, written, k);
    var pages' := pages[written := LeafDelete(pages[written], k)];
    assert NodeHolds(pages', own, own, contents - {k}, id);
    if written == id {
      DeletedSlots(pages[id], own[id], contents, k, i, from);
    } else {
      assert !(own[id].lo <= k < own[id].hi);
    }
  }

  lemma DeletedSlots(n: Node, s: Span, contents: map<Key, RID>, k: Key, i: nat, from: Key)
    requires n.Leaf? && n.WellFormed() && LeafHolds(n, s, contents) && s.lo <= k < s.hi && i <= |n.keys|
    requires k in contents
    requires (forall j :: 0 <= j < i ==> n.keys[j] < from) && (forall j :: i <= j < |n.keys| ==> from <= n.keys[j])
    ensures var m := LeafDelete(n, k);
      && |m.keys| == |n.keys| - 1
      && (if k < from then i > 0 && (i < |n.keys| ==> m.keys[i - 1] == n.keys[i])
          else i <= |m.keys| && (forall j :: 0 <= j < i ==> m.keys[j] < from)
               && (forall j :: i <= j < |m.keys| ==> from <= m.keys[j]))
  {
    OwnedKeys(n, s, contents, k);
    FirstAtLeastFinds(n.keys, k);
    var p := FirstAtLeast(n.keys, k);
    assert n.keys[p] == k;
  }

  class Cursor {
    const tree: BPlusTree
    var currPageID: PageId
    var slotIdx: nat
    var endKey: Key
    var epoch: nat
    var isClosed: bool
    ghost var from: Key

    /** As long as the epoch has not moved, the cursor is in a live leaf. */
    ghost predicate InLeaf()
      reads this, tree
    {
      !isClosed && epoch == tree.epoch ==>
        currPageID in tree.own && currPageID in tree.pages && tree.pages[currPageID].Leaf?
    }

    /** Open cursors stand just before the least key of the map that is at least from. */
    ghost predicate Stands()
      reads this, tree
    {
      !isClosed ==> At(tree.pages, tree.own, tree.contents, currPageID, slotIdx, from)
    }

    /** Between calls the leaf the cursor is in is the one it last read from. */
    ghost predicate Valid()
      reads this, tree
    {
      Stands() && (!isClosed ==> tree.own[currPageID].lo <= from)
    }

    /** The range scan of [startKey, endKey]; an empty range gives a closed cursor. */
    constructor (tree: BPlusTree, startKey: uint64, endKey: uint64)
      requires tree.Valid()
      ensures Valid() && this.tree == tree && this.endKey == endKey && epoch == tree.epoch
      ensures isClosed <==> startKey > endKey
      ensures !isClosed ==> from == startKey
    {
      this.tree := tree;
      this.endKey, this.epoch, this.isClosed := endKey, tree.epoch, startKey > endKey;
      this.from := startKey;
      this.currPageID, this.slotIdx := 0, 0;
      new;
      if startKey <= endKey {
        var path, id := tree.Descend(startKey);
        var n := tree.pages[id];
        currPageID, slotIdx := id, FirstAtLeast(n.keys, startKey);
      }
    }

    method Close()
      modifies this`isClosed
      ensures isClosed
    {
      isClosed := true;
    }

    /** Follows the leaf chain to the next occupied slot; false at the end of the chain. */
    method SeekSlot() returns (found: bool)
      requires tree.Valid() && InLeaf() && !isClosed && epoch == tree.epoch
      modifies this`currPageID, this`slotIdx
      ensures InLeaf() && (old(Stands()) ==> Stands())
      ensures found ==> slotIdx < |tree.pages[currPageID].keys|
      ensures !found && old(Stands()) ==> NoKeys(tree.contents, from, TWO_TO_64)
    {
      var id, i: nat := currPageID, slotIdx;
      ghost var stands := Stands();
      while i >= |tree.pages[id].keys|
        invariant id in tree.own && id in tree.pages && tree.pages[id].Leaf?
        invariant stands ==> At(tree.pages, tree.own, tree.contents, id, i, from)
        decreases TWO_TO_64 - tree.own[id].lo
      {
        var nextID := tree.pages[id].next;
        assert ChainHolds(tree.pages, tree.own, id) && NodeHolds(tree.pages, tree.own, tree.own, tree.contents, id);
        if nextID == 0 {
          if stands { AtEnd(tree.pages, tree.own, tree.contents, id, from); }
          currPageID, slotIdx := id, i;
          return false;
        }
        NextLeafFacts(tree.pages, tree.rootPageID, tree.own, tree.contents, id);
        if stands { AtNextLeaf(tree.pages, tree.rootPageID, tree.own, tree.contents, id, from); }
        id, i := nextID, 0;
      }
      currPageID, slotIdx := id, i;
      return true;
    }

    /** Yields the entries from onwards in key order, one a call, and closes after the last one. Writes since the last
        call may have moved the slots under the cursor; it then still yields entries of the map. A tree broken by a
        deletion has moved its epoch, and the cursor says so without looking at it. */
    method Next() returns (r: NextResult)
      requires !isClosed && epoch == tree.epoch ==> tree.Valid()
      requires InLeaf()
      modifies this
      ensures InLeaf() && endKey == old(endKey) && epoch == old(epoch)
      ensures old(isClosed) ==> r == Done && isClosed
      ensures !old(isClosed) && tree.epoch != epoch ==> r == Modified && isClosed
      ensures !old(isClosed) && tree.epoch == epoch ==> r != Modified
      ensures r.Item? ==> !isClosed && r.key <= endKey && from == r.key + 1
      ensures r.Item? ==> r.key in tree.contents && tree.contents[r.key] == r.rid
      ensures r.Done? ==> isClosed
      ensures old(Valid()) ==> Valid()
      ensures old(Valid()) && !old(isClosed) && r == Done ==> NoKeys(tree.contents, old(from), endKey + 1)
      ensures old(Valid()) && r.Item? ==> old(from) <= r.key && NoKeys(tree.contents, old(from), r.key)
    {
      if isClosed {
        return Done;
      }
      if tree.epoch != epoch {
        Close();
        return Modified;
      }
      var found := SeekSlot();
      if !found {
        Close();
        return Done;
      }
      EntryAtSlot(tree.pages, tree.own, tree.contents, currPageID, slotIdx);
      var key, rid := tree.pages[currPageID].keys[slotIdx], tree.pages[currPageID].rids[slotIdx];
      if Stands() { AtSlot(tree.pages, tree.own, tree.contents, currPageID, slotIdx, from); }
      if key > endKey {
        Close();
        return Done;
      }
      slotIdx, from := slotIdx + 1, key + 1;
      return Item(key, rid);
    }
  }

  lemma EntryAtSlot(pages: Pages, own: Spans, contents: map<Key, RID>, id: PageId, i: nat)
    requires NodesHold(pages, own, own, contents) && id in own && id in pages && pages[id].Leaf? && i < |pages[id].keys|
    ensures pages[id].Shaped() && pages[id].keys[i] in contents && contents[pages[id].keys[i]] == pages[id].rids[i]
  {
    assert NodeHolds(pages, own, own, contents, id);
    EntryAt(pages[id], i);
    OwnedKeys(pages[id], own[id], contents, pages[id].keys[i]);
  }

  /** The cursor's leaf owns the key, and the cursor is already past it. */
  ghost predicate PassedHere(cursor: Cursor, key: Key)
    requires cursor.Valid() && !cursor.isClosed
    reads cursor, cursor.tree
  {
    cursor.tree.own[cursor.currPageID].lo <= key < cursor.from && key < cursor.tree.own[cursor.currPageID].hi
  }

  /** An insertion while a cursor is open either moves the epoch, or the scan goes on correctly over the new map exactly
      when the key is not a new one that the cursor has just passed in its leaf. */
  method InsertDuringScan(cursor: Cursor, key: uint64, rid: RID)
    requires cursor.tree.Valid() && cursor.Valid() && !cursor.isClosed && cursor.epoch == cursor.tree.epoch
    modifies cursor.tree
    ensures cursor.tree.Valid() && cursor.tree.contents == old(cursor.tree.contents)[key := rid] && cursor.InLeaf()
    ensures cursor.tree.epoch == cursor.epoch ==>
      (cursor.Valid() <==> !(key !in old(cursor.tree.contents) && old(PassedHere(cursor, key))))
  {
    var tree := cursor.tree;
    ghost var pages, own, contents := tree.pages, tree.own, tree.contents;
    tree.Insert(key, rid);
    if tree.epoch == cursor.epoch {
      InsertedKeepsCursor(pages, tree.pages, tree.rootPageID, own, contents, key, rid, cursor.currPageID,
                          cursor.slotIdx, cursor.from);
    }
  }

  /** A deletion while a cursor is open; it leaves the tree as it is or rebalances, which moves the epoch. */
  method DeleteDuringScan(cursor: Cursor, key: uint64)
    requires cursor.tree.Valid() && cursor.Valid() && !cursor.isClosed && cursor.epoch == cursor.tree.epoch
    modifies cursor.tree
    ensures cursor.InLeaf() && (!cursor.tree.Valid() ==> cursor.tree.epoch != cursor.epoch)
    ensures cursor.tree.epoch == cursor.epoch ==>
      && cursor.tree.Valid() && cursor.tree.contents == old(cursor.tree.contents) - {key}
      && (cursor.Valid() <==> !(key in old(cursor.tree.contents) && old(PassedHere(cursor, key))))
  {
    var tree := cursor.tree;
    ghost var pages, own, contents := tree.pages, tree.own, tree.contents;
    var found := tree.Delete(key);
    if found && tree.epoch == cursor.epoch {
      ghost var written :|
        && LeafReady(pages, own, contents, written, key)
        && tree.pages == pages[written := LeafDelete(pages[written], key)];
      DeleteKeepsCursor(pages, tree.rootPageID, own, contents, written, key, cursor.currPageID, cursor.slotIdx,
                        cursor.from);
    }
  }
}
