/** Scans that read the values: bounded pages of a range, and search in bounded chunks. Put together they are the range,
    and all its matches. */
module ScanSearches {
  import opened Types
  import opened Sequences
  import opened BPlusTrees
  import opened Cursors
  import opened Scans
  import opened RecordStores

  const DEFAULT_MATCHES := 50
  const MAX_MATCHES := 200
  const DEFAULT_SCAN := 2500
  const MAX_SCAN := 10000

  /** The entries whose value matches the query. */
  ghost function Matching(values: map<Key, Bytes>, matches: Bytes -> bool): map<Key, Bytes> {
    map k | k in values && matches(values[k]) :: values[k]
  }

  function Clamped(n: int, standard: nat, max: nat): nat {
    if n <= 0 then standard else if n > max then max else n
  }

  /** The keys of a range. */
  ghost function KeysIn<T>(values: map<Key, T>, lo: Key, hi: Key): set<Key> {
    set k | k in values && lo <= k < hi
  }

  lemma ListingCount<T>(keys: seq<Key>, items: seq<T>, contents: map<Key, T>, lo: Key, hi: Key)
    requires Listing(keys, items, contents, lo, hi)
    ensures |keys| == |KeysIn(contents, lo, hi)|
  {
    DistinctCount(keys);
    assert (set k | k in keys) == KeysIn(contents, lo, hi);
  }

  lemma SameKeys(store: RecordStore, lo: Key, hi: Key)
    requires store.Valid()
    ensures store.tree.contents.Keys == store.values.Keys
    ensures NoKeys(store.tree.contents, lo, hi) <==> NoKeys(store.values, lo, hi)
  {
    assert forall k :: k in store.tree.contents <==> k in store.tree.contents.Keys;
    assert forall k :: k in store.values <==> k in store.values.Keys;
  }

  /** The values read so far are those of the first keys. */
  ghost predicate ReadSoFar(stored: map<Key, Bytes>, keys: seq<Key>, values: seq<Bytes>) {
    |values| <= |keys| && forall j :: 0 <= j < |values| ==> keys[j] in stored && stored[keys[j]] == values[j]
  }

  lemma ReadOneMore(stored: map<Key, Bytes>, keys: seq<Key>, values: seq<Bytes>, value: Bytes)
    requires ReadSoFar(stored, keys, values) && |values| < |keys|
    requires keys[|values|] in stored && stored[keys[|values|]] == value
    ensures ReadSoFar(stored, keys, values + [value])
  {
  }

  /** The values of the records listed. */
  method ReadRecords(store: RecordStore, keys: seq<Key>, rids: seq<RID>, ghost lo: Key, ghost hi: Key)
    returns (values: seq<Bytes>)
    requires store.Valid() && Listing(keys, rids, store.tree.contents, lo, hi)
    ensures Listing(keys, values, store.values, lo, hi)
  {
    values := [];
    for i := 0 to |keys|
      invariant |values| == i && ReadSoFar(store.values, keys, values)
    {
      var value := store.ReadTuple(rids[i], keys[i]);
      ReadOneMore(store.values, keys, values, value);
      values := values + [value];
    }
    SameKeys(store, lo, hi);
  }

  /** At most limit records of [startKey, endKey], and the key at which the next page starts. */
  method ScanRecords(store: RecordStore, startKey: uint64, endKey: uint64, limit: int)
    returns (keys: seq<Key>, values: seq<Bytes>, nextKey: Key, hasMore: bool)
    requires store.Valid()
    ensures startKey > endKey ==> keys == [] && values == [] && !hasMore
    ensures startKey <= endKey && !hasMore ==> Listing(keys, values, store.values, startKey, endKey + 1)
    ensures hasMore ==> startKey < nextKey <= endKey && nextKey in store.values
    ensures hasMore ==> Listing(keys, values, store.values, startKey, nextKey)
    ensures var bound := if limit <= 0 then DEFAULT_LIMIT else if limit > MAX_LIMIT then MAX_LIMIT else limit;
      |keys| <= bound && (hasMore ==> |keys| == bound)
  {
    var rids;
    keys, rids, nextKey, hasMore := ScanRecordsBounded(store.tree, startKey, endKey, limit);
    SameKeys(store, startKey, startKey);
    if startKey > endKey {
      return keys, [], nextKey, hasMore;
    }
    values := ReadRecords(store, keys, rids, startKey, if hasMore then nextKey else endKey + 1);
  }

  /** The next key the cursor would yield, if it is still open and there is one. */
  method NextKey(cursor: Cursor) returns (next: Option<Key>)
    requires cursor.tree.Valid() && cursor.Valid() && cursor.epoch == cursor.tree.epoch
    modifies cursor
    ensures cursor.Valid()
    ensures old(cursor.isClosed) ==> next == None
    ensures next.None? && !old(cursor.isClosed) ==> NoKeys(cursor.tree.contents, old(cursor.from), cursor.endKey + 1)
    ensures cursor.endKey == old(cursor.endKey)
    ensures next.Some? ==> old(cursor.from) <= next.value <= cursor.endKey && next.value in cursor.tree.contents
    ensures next.Some? ==> NoKeys(cursor.tree.contents, old(cursor.from), next.value)
  {
    var r := cursor.Next();
    return if r.Item? then Some(r.key) else None;
  }

  /** The next entry and its value, if the cursor has not come to its end. */
  method NextRecord(store: RecordStore, cursor: Cursor) returns (key: Key, value: Option<Bytes>)
    requires store.Valid() && cursor.tree == store.tree && cursor.Valid() && cursor.epoch == store.tree.epoch
    requires !cursor.isClosed
    modifies cursor
    ensures cursor.Valid() && cursor.endKey == old(cursor.endKey) && cursor.epoch == old(cursor.epoch)
    ensures value.Some? ==> !cursor.isClosed && old(cursor.from) <= key <= cursor.endKey && cursor.from == key + 1
    ensures value.Some? ==> key in store.values && value.value == store.values[key]
    ensures value.Some? ==> NoKeys(store.values, old(cursor.from), key)
    ensures value.None? ==> cursor.isClosed && NoKeys(store.values, old(cursor.from), cursor.endKey + 1)
  {
    ghost var from := cursor.from;
    var r := cursor.Next();
    SameKeys(store, from, if r.Item? then r.key else cursor.endKey + 1);
    if !r.Item? {
      return 0, None;
    }
    var v := store.ReadTuple(r.rid, r.key);
    return r.key, Some(v);
  }

  lemma MatchNext(keys: seq<Key>, found: seq<Bytes>, values: map<Key, Bytes>, matches: Bytes -> bool, lo: Key,
                  from: Key, k: Key)
    requires Listing(keys, found, Matching(values, matches), lo, from)
    requires NoKeys(values, from, k) && lo <= from <= k && k in values
    ensures matches(values[k]) ==> Listing(keys + [k], found + [values[k]], Matching(values, matches), lo, k + 1)
    ensures !matches(values[k]) ==> Listing(keys, found, Matching(values, matches), lo, k + 1)
  {
  }

  lemma MatchNone(keys: seq<Key>, found: seq<Bytes>, values: map<Key, Bytes>, matches: Bytes -> bool, lo: Key,
                  from: Key, hi: Key)
    requires Listing(keys, found, Matching(values, matches), lo, from) && NoKeys(values, from, hi) && lo <= from <= hi
    ensures Listing(keys, found, Matching(values, matches), lo, hi)
  {
  }

  /** Looks at the entries from the cursor on until it has enough matches or has seen enough entries. */
  method Collect(store: RecordStore, cursor: Cursor, maxScan: nat, limit: nat, matches: Bytes -> bool)
    returns (keys: seq<Key>, found: seq<Bytes>, scanned: nat, ended: bool, ghost seen: seq<Key>, ghost read: seq<Bytes>)
    requires store.Valid() && cursor.tree == store.tree && cursor.Valid() && cursor.epoch == store.tree.epoch
    requires limit > 0 && maxScan > 0
    requires !cursor.isClosed && cursor.from <= cursor.endKey + 1
    modifies cursor
    ensures cursor.Valid() && cursor.endKey == old(cursor.endKey) && cursor.epoch == old(cursor.epoch)
    ensures |keys| <= limit && scanned <= maxScan && (!ended ==> |keys| == limit || scanned == maxScan)
    ensures |seen| == scanned
    ensures ended ==>
      && cursor.isClosed && Listing(keys, found, Matching(store.values, matches), old(cursor.from), cursor.endKey + 1)
      && Listing(seen, read, store.values, old(cursor.from), cursor.endKey + 1)
    ensures !ended ==> !cursor.isClosed && old(cursor.from) < cursor.from <= cursor.endKey + 1
    ensures !ended ==>
      && Listing(keys, found, Matching(store.values, matches), old(cursor.from), cursor.from)
      && Listing(seen, read, store.values, old(cursor.from), cursor.from)
  {
    keys, found, scanned, ended, seen, read := [], [], 0, false, [], [];
    ghost var values, start := store.values, cursor.from;
    ListingEmpty(Matching(values, matches), start, start);
    ListingEmpty(values, start, start);
    while scanned < maxScan && |keys| < limit
      invariant store.Valid() && store.values == values && cursor.Valid() && cursor.epoch == store.tree.epoch
      invariant cursor.endKey == old(cursor.endKey)
      invariant !cursor.isClosed && start <= cursor.from <= cursor.endKey + 1 && (scanned > 0 ==> start < cursor.from)
      invariant |keys| <= scanned <= maxScan && |keys| <= limit && |seen| == scanned
      invariant Listing(keys, found, Matching(values, matches), start, cursor.from)
      invariant Listing(seen, read, values, start, cursor.from)
    {
      ghost var from := cursor.from;
      var key, value := NextRecord(store, cursor);
      if value.None? {
        MatchNone(keys, found, values, matches, start, from, cursor.endKey + 1);
        ListingEnds(seen, read, values, start, from, cursor.endKey + 1);
        ended := true;
        return;
      }
      MatchNext(keys, found, values, matches, start, from, key);
      ListingAppend(seen, read, values, start, from, key);
      scanned, seen, read := scanned + 1, seen + [key], read + [value.value];
      if matches(value.value) {
        keys, found := keys + [key], found + [value.value];
      }
    }
  }

  /** A chunk of the search, and the entries it has looked at. */
  method SearchChunk(store: RecordStore, startKey: uint64, endKey: uint64, maxScan: nat, limit: nat,
                     matches: Bytes -> bool)
    returns (keys: seq<Key>, found: seq<Bytes>, scanned: nat, nextKey: Key, hasMore: bool,
             ghost seen: seq<Key>, ghost read: seq<Bytes>)
    requires store.Valid() && maxScan > 0 && limit > 0
    ensures |keys| <= limit && scanned <= maxScan && (hasMore ==> |keys| == limit || scanned == maxScan)
    ensures |seen| == scanned
    ensures startKey > endKey ==> keys == [] && scanned == 0 && !hasMore
    ensures startKey <= endKey && !hasMore ==>
      && Listing(keys, found, Matching(store.values, matches), startKey, endKey + 1)
      && Listing(seen, read, store.values, startKey, endKey + 1)
    ensures hasMore ==> startKey < nextKey <= endKey && nextKey in store.values
    ensures hasMore ==>
      && Listing(keys, found, Matching(store.values, matches), startKey, nextKey)
      && Listing(seen, read, store.values, startKey, nextKey)
  {
    keys, found, scanned, nextKey, hasMore, seen, read := [], [], 0, 0, false, [], [];
    var cursor := new Cursor(store.tree, startKey, endKey);
    if cursor.isClosed {
      return;
    }
    var ended;
    keys, found, scanned, ended, seen, read := Collect(store, cursor, maxScan, limit, matches);
    if ended {
      return;
    }
    ghost var from := cursor.from;
    var next := NextKey(cursor);
    SameKeys(store, from, if next.Some? then next.value else endKey + 1);
    ghost var upTo := if next.Some? then next.value else endKey + 1;
    MatchNone(keys, found, store.values, matches, startKey, from, upTo);
    ListingEnds(seen, read, store.values, startKey, from, upTo);
    if next.Some? {
      nextKey, hasMore := next.value, true;
    }
  }

  /** Up to limit matches among up to maxScan records of [startKey, endKey], and where to go on. A chunk that does not
      reach the end of the range has found as many or looked at as many as it may. */
  method ScanSearchChunk(store: RecordStore, startKey: uint64, endKey: uint64, maxScan: int, limit: int,
                         matches: Bytes -> bool)
    returns (keys: seq<Key>, found: seq<Bytes>, scanned: nat, nextKey: Key, hasMore: bool)
    requires store.Valid()
    ensures
      var most := if limit <= 0 then DEFAULT_MATCHES else if limit > MAX_MATCHES then MAX_MATCHES else limit;
      var farthest := if maxScan <= 0 then DEFAULT_SCAN else if maxScan > MAX_SCAN then MAX_SCAN else maxScan;
      |keys| <= most && scanned <= farthest && (hasMore ==> |keys| == most || scanned == farthest)
    ensures startKey <= endKey ==>
      scanned == |KeysIn(store.values, startKey, if hasMore then nextKey else endKey + 1)|
    ensures startKey > endKey ==> keys == [] && scanned == 0 && !hasMore
    ensures startKey <= endKey && !hasMore ==>
      Listing(keys, found, Matching(store.values, matches), startKey, endKey + 1)
    ensures hasMore ==> startKey < nextKey <= endKey && nextKey in store.values
    ensures hasMore ==> Listing(keys, found, Matching(store.values, matches), startKey, nextKey)
  {
    ghost var seen, read;
    keys, found, scanned, nextKey, hasMore, seen, read :=
      SearchChunk(store, startKey, endKey, Clamped(maxScan, DEFAULT_SCAN, MAX_SCAN),
                  Clamped(limit, DEFAULT_MATCHES, MAX_MATCHES), matches);
    if startKey <= endKey {
      ListingCount(seen, read, store.values, startKey, if hasMore then nextKey else endKey + 1);
    }
  }

  /** Following nextKey chunk by chunk finds every match in the range, once. */
  method SearchAll(store: RecordStore, startKey: uint64, endKey: uint64, maxScan: int, limit: int,
                   matches: Bytes -> bool)
    returns (keys: seq<Key>, found: seq<Bytes>)
    requires store.Valid() && startKey <= endKey
    ensures Listing(keys, found, Matching(store.values, matches), startKey, endKey + 1)
  {
    var start: uint64 := startKey;
    var hasMore := true;
    keys, found := [], [];
    ListingEmpty(Matching(store.values, matches), startKey, startKey);
    while hasMore
      invariant startKey <= start <= endKey
      invariant Listing(keys, found, Matching(store.values, matches), startKey, if hasMore then start else endKey + 1)
      decreases hasMore, endKey - start
    {
      var someKeys, some, scanned, nextKey;
      someKeys, some, scanned, nextKey, hasMore := ScanSearchChunk(store, start, endKey, maxScan, limit, matches);
      ListingConcat(keys, found, someKeys, some, Matching(store.values, matches), startKey, start,
                    if hasMore then nextKey else endKey + 1);
      keys, found := keys + someKeys, found + some;
      if hasMore { start := nextKey; }
    }
  }
}
