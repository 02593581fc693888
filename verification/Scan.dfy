/** Bounded and paginated scans: the pages of one range put together are the whole range. */
module Scans {
  import opened Types
  import opened Sequences
  import opened BPlusTrees
  import opened Cursors

  /** keys and items list, in key order, exactly the entries of the map with keys in [lo, hi). */
  ghost predicate Listing<T>(keys: seq<Key>, items: seq<T>, contents: map<Key, T>, lo: Key, hi: Key) {
    && Sorted(keys) && |items| == |keys|
    && (forall i :: 0 <= i < |keys| ==> lo <= keys[i] < hi && keys[i] in contents && contents[keys[i]] == items[i])
    && (forall k :: k in contents && lo <= k < hi ==> k in keys)
  }

  lemma ListingEmpty<T>(contents: map<Key, T>, lo: Key, hi: Key)
    requires NoKeys(contents, lo, hi)
    ensures Listing([], [], contents, lo, hi)
  {
  }

  lemma ListingConcat<T>(a: seq<Key>, ra: seq<T>, b: seq<Key>, rb: seq<T>, contents: map<Key, T>, lo: Key, mid: Key,
                         hi: Key)
    requires Listing(a, ra, contents, lo, mid) && Listing(b, rb, contents, mid, hi) && lo <= mid <= hi
    ensures Listing(a + b, ra + rb, contents, lo, hi)
  {
  }

  lemma ListingAppend<T>(a: seq<Key>, ra: seq<T>, contents: map<Key, T>, lo: Key, from: Key, k: Key)
    requires Listing(a, ra, contents, lo, from) && NoKeys(contents, from, k) && lo <= from <= k && k in contents
    ensures Listing(a + [k], ra + [contents[k]], contents, lo, k + 1)
  {
  }

  lemma ListingTail<T>(a: seq<Key>, ra: seq<T>, contents: map<Key, T>, lo: Key, hi: Key)
    requires Listing(a, ra, contents, lo, hi) && a != []
    ensures Listing(a[1..], ra[1..], contents, a[0] + 1, hi)
    ensures NoKeys(contents, lo, a[0]) && lo <= a[0] < hi && a[0] in contents && contents[a[0]] == ra[0]
  {
  }

  /** A range has only one listing. */
  lemma {:induction false} ListingUnique<T>(a: seq<Key>, ra: seq<T>, b: seq<Key>, rb: seq<T>, contents: map<Key, T>,
                                            lo: Key, hi: Key)
    requires Listing(a, ra, contents, lo, hi) && Listing(b, rb, contents, lo, hi)
    ensures a == b && ra == rb
    decreases |a|
  {
    if a != [] { ListingTail(a, ra, contents, lo, hi); }
    if b != [] { ListingTail(b, rb, contents, lo, hi); }
    if a == [] || b == [] {
      ListingSameEmpty(a, ra, b, rb, contents, lo, hi);
    } else {
      ListingUnique(a[1..], ra[1..], b[1..], rb[1..], contents, a[0] + 1, hi);
      SameHeadAndTail(a, b);
      SameHeadAndTail(ra, rb);
    }
  }

  lemma SameHeadAndTail<T>(a: seq<T>, b: seq<T>)
    requires a != [] && b != [] && a[0] == b[0] && a[1..] == b[1..]
    ensures a == b
  {
  }

  lemma ListingSameEmpty<T>(a: seq<Key>, ra: seq<T>, b: seq<Key>, rb: seq<T>, contents: map<Key, T>, lo: Key, hi: Key)
    requires Listing(a, ra, contents, lo, hi) && Listing(b, rb, contents, lo, hi)
    ensures a == [] <==> b == []
  {
    assert a != [] ==> a[0] in b;
    assert b != [] ==> b[0] in a;
  }

  const DEFAULT_LIMIT := 50
  const MAX_LIMIT := 500

  /** At most limit entries of [startKey, endKey], and the key at which the next page starts. */
  method ScanRecordsBounded(tree: BPlusTree, startKey: uint64, endKey: uint64, limit: int)
    returns (keys: seq<Key>, rids: seq<RID>, nextKey: Key, hasMore: bool)
    requires tree.Valid()
    ensures startKey > endKey ==> keys == [] && rids == [] && !hasMore
    ensures startKey <= endKey && !hasMore ==> Listing(keys, rids, tree.contents, startKey, endKey + 1)
    ensures hasMore ==> startKey < nextKey <= endKey && nextKey in tree.contents
    ensures hasMore ==> Listing(keys, rids, tree.contents, startKey, nextKey)
    ensures var bound := if limit <= 0 then DEFAULT_LIMIT else if limit > MAX_LIMIT then MAX_LIMIT else limit;
      |keys| <= bound && (hasMore ==> |keys| == bound)
  {
    var bound := if limit <= 0 then DEFAULT_LIMIT else if limit > MAX_LIMIT then MAX_LIMIT else limit;
    var cursor := new Cursor(tree, startKey, endKey);
    keys, rids := Drain(cursor, bound + 1);
    nextKey, hasMore := 0, false;
    if |keys| > bound {
      nextKey, hasMore := keys[bound], true;
      ListingPrefix(keys, rids, tree.contents, startKey, cursor.from, bound);
      keys, rids := keys[..bound], rids[..bound];
    }
  }

  /** Takes up to max entries from a cursor. */
  method Drain(cursor: Cursor, max: nat) returns (keys: seq<Key>, rids: seq<RID>)
    requires cursor.tree.Valid() && cursor.Valid() && cursor.epoch == cursor.tree.epoch
    requires !cursor.isClosed ==> cursor.from <= cursor.endKey + 1
    modifies cursor
    ensures |keys| <= max
    ensures old(cursor.isClosed) ==> keys == [] && rids == []
    ensures !old(cursor.isClosed) ==> Listing(keys, rids, cursor.tree.contents, old(cursor.from),
                                              if |keys| < max then old(cursor.endKey) + 1 else cursor.from)
    ensures !old(cursor.isClosed) && |keys| == max ==> cursor.from <= old(cursor.endKey) + 1
  {
    keys, rids := [], [];
    var tree := cursor.tree;
    ghost var start := cursor.from;
    ListingEmpty(tree.contents, start, start);
    while |keys| < max
      invariant |keys| <= max
      invariant tree.Valid() && cursor.Valid() && cursor.endKey == old(cursor.endKey) && cursor.epoch == tree.epoch
      invariant cursor.isClosed == old(cursor.isClosed)
      invariant cursor.isClosed ==> keys == [] && rids == []
      invariant !cursor.isClosed ==>
        start <= cursor.from <= cursor.endKey + 1 && Listing(keys, rids, tree.contents, start, cursor.from)
      decreases max - |keys|
    {
      ghost var from := cursor.from;
      var r := cursor.Next();
      if !r.Item? {
        if !old(cursor.isClosed) { ListingEnds(keys, rids, tree.contents, start, from, cursor.endKey + 1); }
        return;
      }
      ListingAppend(keys, rids, tree.contents, start, from, r.key);
      keys, rids := keys + [r.key], rids + [r.rid];
    }
  }

  lemma ListingEnds<T>(a: seq<Key>, ra: seq<T>, contents: map<Key, T>, lo: Key, from: Key, hi: Key)
    requires Listing(a, ra, contents, lo, from) && NoKeys(contents, from, hi) && lo <= from <= hi
    ensures Listing(a, ra, contents, lo, hi)
  {
  }

  lemma ListingPrefix<T>(keys: seq<Key>, rids: seq<T>, contents: map<Key, T>, lo: Key, hi: Key, n: nat)
    requires Listing(keys, rids, contents, lo, hi) && n < |keys|
    ensures Listing(keys[..n], rids[..n], contents, lo, keys[n])
    ensures n > 0 ==> lo < keys[n]
  {
    assert lo <= keys[0];
    forall k | k in contents && lo <= k < keys[n] ensures k in keys[..n] {
      var i :| 0 <= i < |keys| && keys[i] == k;
      assert keys[..n][i] == k;
    }
  }

  /** Following nextKey page by page lists the whole range: nothing missed, nothing repeated. */
  method ScanAllPages(tree: BPlusTree, startKey: uint64, endKey: uint64, limit: int)
    returns (keys: seq<Key>, rids: seq<RID>)
    requires tree.Valid() && startKey <= endKey
    ensures Listing(keys, rids, tree.contents, startKey, endKey + 1)
  {
    var start: uint64 := startKey;
    var hasMore := true;
    keys, rids := [], [];
    ListingEmpty(tree.contents, startKey, startKey);
    while hasMore
      invariant startKey <= start <= endKey
      invariant Listing(keys, rids, tree.contents, startKey, if hasMore then start else endKey + 1)
      decreases hasMore, endKey - start
    {
      var pageKeys, pageRids, nextKey;
      pageKeys, pageRids, nextKey, hasMore := ScanRecordsBounded(tree, start, endKey, limit);
      ListingConcat(keys, rids, pageKeys, pageRids, tree.contents, startKey, start,
                    if hasMore then nextKey else endKey + 1);
      keys, rids := keys + pageKeys, rids + pageRids;
      if hasMore { start := nextKey; }
    }
  }
}
