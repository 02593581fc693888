/** What a cache with recency eviction and expiry does, on its entries in most-recent-use order. */
module CacheSpecs {
  import opened Types
  import opened Sequences

  /** An expiry of 0 means never. */
  datatype Item<V> = Item(key: string, value: V, expiresAt: int)

  predicate Expired<V>(it: Item<V>, now: int) {
    0 < it.expiresAt <= now
  }

  /** The entry of a key. */
  function Lookup<V>(s: seq<Item<V>>, key: string): Option<Item<V>> {
    if s == [] then None else if s[0].key == key then Some(s[0]) else Lookup(s[1..], key)
  }

  ghost predicate DistinctKeys<V>(s: seq<Item<V>>) {
    forall i, j :: 0 <= i < j < |s| ==> s[i].key != s[j].key
  }

  function Without<V>(s: seq<Item<V>>, key: string): seq<Item<V>> {
    if s == [] then [] else (if s[0].key == key then [] else [s[0]]) + Without(s[1..], key)
  }

  /** The entry goes to the front; a new key makes room by dropping the least recently used one. */
  function AfterSet<V>(s: seq<Item<V>>, capacity: nat, it: Item<V>): seq<Item<V>> {
    if Lookup(s, it.key).Some? then [it] + Without(s, it.key)
    else if |s| >= capacity && s != [] then [it] + s[..|s| - 1]
    else [it] + s
  }

  /** An expired entry is dropped; any other goes to the front. */
  function AfterGet<V>(s: seq<Item<V>>, key: string, now: int): seq<Item<V>> {
    match Lookup(s, key)
    case None => s
    case Some(it) => if Expired(it, now) then Without(s, key) else [it] + Without(s, key)
  }

  function Found<V>(s: seq<Item<V>>, key: string, now: int): Option<V> {
    match Lookup(s, key)
    case None => None
    case Some(it) => if Expired(it, now) then None else Some(it.value)
  }

  lemma {:induction false} LookupIs<V>(s: seq<Item<V>>, i: nat)
    requires DistinctKeys(s) && i < |s|
    ensures Lookup(s, s[i].key) == Some(s[i])
    decreases |s|
  {
    if i > 0 {
      LookupIs(s[1..], i - 1);
    }
  }

  lemma {:induction false} LookupNothing<V>(s: seq<Item<V>>, key: string)
    requires forall j :: 0 <= j < |s| ==> s[j].key != key
    ensures Lookup(s, key) == None && Without(s, key) == s
    decreases |s|
  {
    WithoutNothing(s, key);
    if s != [] {
      LookupNothing(s[1..], key);
    }
  }

  /** A sweep drops every entry whose key came due and whose expiry is not in the future. */
  function Kept<V>(s: seq<Item<V>>, due: set<string>, now: int): seq<Item<V>> {
    if s == [] then []
    else (if s[0].expiresAt <= now && s[0].key in due then [] else [s[0]]) + Kept(s[1..], due, now)
  }

  lemma {:induction false} WithoutNothing<V>(s: seq<Item<V>>, key: string)
    requires forall j :: 0 <= j < |s| ==> s[j].key != key
    ensures Without(s, key) == s
    decreases |s|
  {
    if s != [] {
      WithoutNothing(s[1..], key);
      assert [s[0]] + s[1..] == s;
    }
  }

  lemma {:induction false} WithoutIs<V>(s: seq<Item<V>>, i: nat)
    requires DistinctKeys(s) && i < |s|
    ensures Without(s, s[i].key) == RemoveAt(s, i)
    decreases |s|
  {
    if i == 0 {
      WithoutNothing(s[1..], s[0].key);
      assert RemoveAt(s, 0) == s[1..];
    } else {
      WithoutIs(s[1..], i - 1);
      assert s[1..][i - 1] == s[i];
      assert RemoveAt(s, i) == [s[0]] + RemoveAt(s[1..], i - 1);
    }
  }

  lemma {:induction false} WithoutUpdate<V>(s: seq<Item<V>>, i: nat, it: Item<V>)
    requires i < |s| && it.key == s[i].key
    ensures Without(s[i := it], it.key) == Without(s, it.key)
    decreases |s|
  {
    if i == 0 {
      assert s[0 := it][1..] == s[1..];
    } else {
      WithoutUpdate(s[1..], i - 1, it);
      assert s[i := it][1..] == s[1..][i - 1 := it];
    }
  }

  // ---------- the same, entry by entry ----------

  /** The i-th entry is the key's. */
  ghost predicate EntryAt<V>(s: seq<Item<V>>, i: int, key: string) {
    0 <= i < |s| && s[i].key == key
  }

  ghost predicate HasKey<V>(s: seq<Item<V>>, key: string) {
    exists i :: 0 <= i < |s| && s[i].key == key
  }

  /** An entry without expiry, or one that expires later, is what a get returns, and it moves to the front. */
  lemma GetLive<V>(s: seq<Item<V>>, i: nat, now: int)
    requires DistinctKeys(s) && i < |s| && (s[i].expiresAt <= 0 || now < s[i].expiresAt)
    ensures Found(s, s[i].key, now) == Some(s[i].value)
    ensures AfterGet(s, s[i].key, now) == [s[i]] + s[..i] + s[i + 1..]
  {
    LookupIs(s, i);
    WithoutIs(s, i);
    assert [s[i]] + RemoveAt(s, i) == [s[i]] + s[..i] + s[i + 1..];
  }

  lemma GetExpired<V>(s: seq<Item<V>>, i: nat, now: int)
    requires DistinctKeys(s) && i < |s| && 0 < s[i].expiresAt <= now
    ensures Found(s, s[i].key, now) == None && AfterGet(s, s[i].key, now) == s[..i] + s[i + 1..]
  {
    LookupIs(s, i);
    WithoutIs(s, i);
  }

  lemma GetMissing<V>(s: seq<Item<V>>, key: string, now: int)
    requires !HasKey(s, key)
    ensures Found(s, key, now) == None && AfterGet(s, key, now) == s && Lookup(s, key) == None && Without(s, key) == s
  {
    LookupNothing(s, key);
  }

  lemma SetKnown<V>(s: seq<Item<V>>, i: nat, capacity: nat, it: Item<V>)
    requires DistinctKeys(s) && i < |s| && s[i].key == it.key
    ensures AfterSet(s, capacity, it) == [it] + s[..i] + s[i + 1..]
  {
    LookupIs(s, i);
    WithoutIs(s, i);
    assert [it] + RemoveAt(s, i) == [it] + s[..i] + s[i + 1..];
  }

  lemma SetNew<V>(s: seq<Item<V>>, capacity: nat, it: Item<V>)
    requires !HasKey(s, it.key) && capacity > 0
    ensures AfterSet(s, capacity, it) == [it] + if |s| >= capacity then s[..|s| - 1] else s
  {
    LookupNothing(s, it.key);
  }

  lemma {:induction false} KeptNothing<V>(s: seq<Item<V>>, now: int)
    ensures Kept(s, {}, now) == s
    decreases |s|
  {
    if s != [] {
      KeptNothing(s[1..], now);
      assert [s[0]] + s[1..] == s;
    }
  }

  lemma {:induction false} KeptShorter<V>(s: seq<Item<V>>, due: set<string>, now: int)
    ensures |Kept(s, due, now)| <= |s|
    decreases |s|
  {
    if s != [] {
      KeptShorter(s[1..], due, now);
    }
  }

  lemma {:induction false} KeptMembers<V>(s: seq<Item<V>>, due: set<string>, now: int, it: Item<V>)
    ensures it in Kept(s, due, now) <==> it in s && !(it.expiresAt <= now && it.key in due)
    decreases |s|
  {
    if s != [] {
      KeptMembers(s[1..], due, now, it);
      assert s == [s[0]] + s[1..];
    }
  }

  /** What one due entry of the heap does: its key's entry goes, unless that expires later. */
  function AfterDue<V>(s: seq<Item<V>>, key: string, now: int): seq<Item<V>> {
    match Lookup(s, key)
    case None => s
    case Some(it) => if it.expiresAt > now then s else Without(s, key)
  }

  lemma {:induction false} KeptHasNot<V>(s: seq<Item<V>>, due: set<string>, now: int, key: string)
    requires forall j :: 0 <= j < |s| ==> s[j].key != key
    ensures Lookup(Kept(s, due, now), key) == None && Without(Kept(s, due, now), key) == Kept(s, due, now)
    decreases |s|
  {
    if s != [] {
      KeptHasNot(s[1..], due, now, key);
      var head := if s[0].expiresAt <= now && s[0].key in due then [] else [s[0]];
      LookupFirst(head, Kept(s[1..], due, now), key);
    }
  }

  lemma LookupFirst<V>(head: seq<Item<V>>, rest: seq<Item<V>>, key: string)
    requires |head| <= 1
    ensures head == [] ==> head + rest == rest
    ensures head != [] && head[0].key != key ==> Lookup(head + rest, key) == Lookup(rest, key)
    ensures head != [] && head[0].key != key ==> Without(head + rest, key) == head + Without(rest, key)
    ensures head != [] && head[0].key == key ==> Lookup(head + rest, key) == Some(head[0])
    ensures head != [] && head[0].key == key ==> Without(head + rest, key) == Without(rest, key)
  {
  }

  /** Due entries one after the other make up the sweep. */
  lemma {:induction false} AfterDueIsKept<V>(s: seq<Item<V>>, due: set<string>, now: int, key: string)
    requires DistinctKeys(s)
    ensures AfterDue(Kept(s, due, now), key, now) == Kept(s, due + {key}, now)
    decreases |s|
  {
    if s != [] {
      var head := if s[0].expiresAt <= now && s[0].key in due then [] else [s[0]];
      AfterDueIsKept(s[1..], due, now, key);
      LookupFirst(head, Kept(s[1..], due, now), key);
      if s[0].key == key {
        KeptHasNot(s[1..], due, now, key);
      }
    }
  }

  lemma {:induction false} AfterDueMembers<V>(s: seq<Item<V>>, key: string, now: int, it: Item<V>)
    requires DistinctKeys(s) && it in AfterDue(s, key, now)
    ensures it in s && (it.key == key ==> it.expiresAt > now)
    decreases |s|
  {
    KeptNothing(s, now);
    AfterDueIsKept(s, {}, now, key);
    KeptMembers(s, {} + {key}, now, it);
  }

  /** A sweep drops exactly the expired entries just when no key that came due has an entry that never expires. */
  lemma SweepIsExact<V>(s: seq<Item<V>>, due: set<string>, now: int)
    requires forall it :: it in s ==> it.expiresAt >= 0 && (Expired(it, now) ==> it.key in due)
    requires now >= 0
    ensures (forall it :: it in s ==> (it in Kept(s, due, now) <==> !Expired(it, now)))
       <==> (forall it :: it in s && it.expiresAt == 0 ==> it.key !in due)
  {
    forall it | it in s
      ensures it in Kept(s, due, now) <==> !(it.expiresAt <= now && it.key in due)
    {
      KeptMembers(s, due, now, it);
    }
  }
}
