/** The cache: a map to list nodes, the recency list, and a heap of expiry times. */
module Caches {
  import opened Types
  import opened Sequences
  import opened Heaps
  import opened LruLists
  import opened CacheSpecs

  datatype TTLEntry = TTLEntry(key: string, expiresAt: int)

  predicate Earlier(a: TTLEntry, b: TTLEntry) {
    a.expiresAt < b.expiresAt
  }

  /** The map leads to exactly the nodes of the list, each under its own key. */
  ghost predicate MapHolds<V>(items: map<string, Node<V>>, nodes: seq<Node<V>>) {
    && (forall k :: k in items ==> items[k] in nodes && items[k].key == k)
    && (forall i :: 0 <= i < |nodes| ==> Mapped(items, nodes[i]))
    && |items| == |nodes|
  }

  ghost predicate Mapped<V>(items: map<string, Node<V>>, n: Node<V>) {
    n.key in items && items[n.key] == n
  }

  /** Every expiring item has its entry in the heap. */
  ghost predicate Queued<V>(s: seq<Item<V>>, q: multiset<TTLEntry>) {
    forall it :: it in s ==> ItemQueued(it, q)
  }

  ghost predicate ItemQueued<V>(it: Item<V>, q: multiset<TTLEntry>) {
    it.expiresAt >= 0 && (it.expiresAt > 0 ==> TTLEntry(it.key, it.expiresAt) in q)
  }

  function ExpiryTime(ttl: int, now: int): int {
    if ttl > 0 then now + ttl else 0
  }

  /** The keys with an expiry time that has come. */
  ghost function DueKeys(q: multiset<TTLEntry>, now: int): set<string> {
    set e | e in q && e.expiresAt <= now :: e.key
  }

  lemma {:induction false} WithoutMembers<V>(s: seq<Item<V>>, key: string, it: Item<V>)
    ensures it in Without(s, key) ==> it in s
    decreases |s|
  {
    if s != [] {
      WithoutMembers(s[1..], key, it);
    }
  }

  lemma QueuedWithout<V>(s: seq<Item<V>>, key: string, q: multiset<TTLEntry>)
    requires Queued(s, q)
    ensures Queued(Without(s, key), q)
  {
  }

  lemma {:induction false} LookupMember<V>(s: seq<Item<V>>, key: string)
    ensures Lookup(s, key).Some? ==> Lookup(s, key).value in s && Lookup(s, key).value.key == key
    decreases |s|
  {
    if s != [] {
      LookupMember(s[1..], key);
    }
  }

  /** What a get or a set leaves is queued if what was there, and what is new, was. */
  lemma QueuedAfterSet<V>(s: seq<Item<V>>, capacity: nat, it: Item<V>, q: multiset<TTLEntry>)
    requires Queued(s, q) && ItemQueued(it, q)
    ensures Queued(AfterSet(s, capacity, it), q)
  {
    QueuedWithout(s, it.key, q);
  }

  lemma QueuedAfterGet<V>(s: seq<Item<V>>, key: string, now: int, q: multiset<TTLEntry>)
    requires Queued(s, q)
    ensures Queued(AfterGet(s, key, now), q)
  {
    QueuedWithout(s, key, q);
    LookupMember(s, key);
  }

  /** An entry of the heap may go once what it was for has been dropped. */
  lemma QueuedAfterDue<V>(s: seq<Item<V>>, e: TTLEntry, now: int, q: multiset<TTLEntry>)
    requires DistinctKeys(s) && Queued(s, q) && e.expiresAt <= now
    ensures Queued(AfterDue(s, e.key, now), q - multiset{e})
  {
    forall it | it in AfterDue(s, e.key, now)
      ensures ItemQueued(it, q - multiset{e})
    {
      AfterDueMembers(s, e.key, now, it);
      assert ItemQueued(it, q);
      assert TTLEntry(it.key, it.expiresAt) != e;
    }
  }

  lemma RemoveFromMap<V>(items: map<string, Node<V>>, nodes: seq<Node<V>>, i: nat)
    requires MapHolds(items, nodes) && Distinct(nodes) && i < |nodes|
    ensures MapHolds(items - {nodes[i].key}, RemoveAt(nodes, i))
  {
    var key, nodes' := nodes[i].key, RemoveAt(nodes, i);
    assert Mapped(items, nodes[i]);
    RemovedMembers(nodes, i);
    RemovedDistinct(nodes, i);
    forall j | 0 <= j < |nodes'|
      ensures Mapped(items - {key}, nodes'[j])
    {
      RemoveAtElement(nodes, i, j);
      assert Mapped(items, nodes'[j]) && nodes'[j] in nodes';
    }
    assert (items - {key}).Keys == items.Keys - {key};
    assert |items - {key}| == |(items - {key}).Keys| && |items.Keys| == |items|;
  }

  lemma AddToMap<V>(items: map<string, Node<V>>, nodes: seq<Node<V>>, node: Node<V>)
    requires MapHolds(items, nodes) && node.key !in items
    ensures MapHolds(items[node.key := node], [node] + nodes) && node !in nodes
  {
  }

  lemma MovedMap<V>(items: map<string, Node<V>>, nodes: seq<Node<V>>, i: nat)
    requires MapHolds(items, nodes) && i < |nodes|
    ensures MapHolds(items, [nodes[i]] + RemoveAt(nodes, i))
  {
  }

  /** What a get comes to, entry by entry. */
  lemma GetCases<V>(s: seq<Item<V>>, key: string, now: int, q: multiset<TTLEntry>)
    requires DistinctKeys(s) && Queued(s, q)
    ensures var value, after := Found(s, key, now), AfterGet(s, key, now);
      && (value.Some? ==>
           exists it :: it in s && it.key == key && it.value == value.value &&
                        (it.expiresAt == 0 || now < it.expiresAt))
      && (forall i :: EntryAt(s, i, key) ==>
           if s[i].expiresAt == 0 || now < s[i].expiresAt
           then value == Some(s[i].value) && after == [s[i]] + s[..i] + s[i + 1..]
           else value == None && after == s[..i] + s[i + 1..])
      && ((forall it :: it in s ==> it.key != key) ==> value == None && after == s)
  {
    if HasKey(s, key) {
      var i :| 0 <= i < |s| && s[i].key == key;
      assert EntryAt(s, i, key);
      assert s[i] in s && ItemQueued(s[i], q);
      if s[i].expiresAt == 0 || now < s[i].expiresAt {
        GetLive(s, i, now);
      } else {
        GetExpired(s, i, now);
      }
      forall j | 0 <= j < |s| && s[j].key == key
        ensures j == i
      {
        assert s[i].key == s[j].key;
      }
    } else {
      GetMissing(s, key, now);
    }
  }

  lemma AfterSetCases<V>(s: seq<Item<V>>, capacity: nat, it: Item<V>)
    requires DistinctKeys(s) && capacity > 0
    ensures var after := AfterSet(s, capacity, it);
      && after != [] && after[0] == it
      && (forall i :: EntryAt(s, i, it.key) ==> after[1..] == s[..i] + s[i + 1..])
      && ((forall x :: x in s ==> x.key != it.key) ==>
           after[1..] == if |s| >= capacity then s[..|s| - 1] else s)
  {
    if HasKey(s, it.key) {
      var k :| 0 <= k < |s| && s[k].key == it.key;
      SetKnown(s, k, capacity, it);
      assert s[k] in s;
    } else {
      SetNew(s, capacity, it);
    }
    forall i | EntryAt(s, i, it.key)
      ensures AfterSet(s, capacity, it)[1..] == s[..i] + s[i + 1..]
    {
      SetKnown(s, i, capacity, it);
      assert ([it] + s[..i] + s[i + 1..])[1..] == s[..i] + s[i + 1..];
    }
  }

  /** What a sweep leaves, in terms of what is in the heap. */
  lemma SweepCases<V>(s: seq<Item<V>>, q: multiset<TTLEntry>, now: int, it: Item<V>)
    ensures it in Kept(s, DueKeys(q, now), now) <==>
      (it in s && !(it.expiresAt <= now && exists e :: e in q && e.key == it.key && e.expiresAt <= now))
  {
    KeptMembers(s, DueKeys(q, now), now, it);
  }

  class Cache<V> {
    const maxCapacity: nat
    var items: map<string, Node<V>>
    const evictionList: LRUList<V>
    const ttlQueue: Heap<TTLEntry>

    /** The map and the list agree, and there is room for one entry at least. */
    ghost predicate Shaped()
      reads this, evictionList, evictionList.nodes
    {
      && evictionList.Valid() && MapHolds(items, evictionList.nodes)
      && 0 < maxCapacity && |evictionList.nodes| <= maxCapacity
    }

    ghost predicate Valid()
      reads this, evictionList, evictionList.nodes, ttlQueue
    {
      && Shaped() && ttlQueue.Valid() && ttlQueue.less == Earlier
      && Queued(View(), Queue())
    }

    /** The entries, the most recently used first. */
    ghost function View(): seq<Item<V>>
      reads evictionList
    {
      evictionList.entries
    }

    ghost function Queue(): multiset<TTLEntry>
      reads ttlQueue
    {
      multiset(ttlQueue.data)
    }

    constructor (maxCapacity: int)
      ensures Valid() && View() == [] && Queue() == multiset{} && fresh(evictionList) && fresh(ttlQueue)
      ensures evictionList.nodes == []
      ensures this.maxCapacity == if maxCapacity <= 0 then 1000 else maxCapacity
    {
      this.maxCapacity := if maxCapacity <= 0 then 1000 else maxCapacity;
      items := map[];
      evictionList := new LRUList<V>();
      ttlQueue := new Heap<TTLEntry>(Earlier);
    }

    lemma KeysAgree()
      requires Shaped()
      ensures DistinctKeys(View())
      ensures forall i :: 0 <= i < |View()| ==> View()[i].key in items
    {
      var nodes, s := evictionList.nodes, View();
      forall i | 0 <= i < |s|
        ensures s[i].key == nodes[i].key && Mapped(items, nodes[i])
      {
        assert Placed(nodes, s, i);
      }
    }

    lemma NotCached(key: string)
      requires Shaped() && key !in items
      ensures Lookup(View(), key) == None && Without(View(), key) == View()
    {
      KeysAgree();
      LookupNothing(View(), key);
    }

    /** Where a mapped node is in the list. */
    lemma Position(key: string) returns (i: nat)
      requires Shaped() && key in items
      ensures i < |evictionList.nodes| && evictionList.nodes[i] == items[key]
      ensures View()[i] == items[key].Entry() && Lookup(View(), key) == Some(View()[i])
      ensures View()[i].key == key && Without(View(), key) == RemoveAt(View(), i)
    {
      i :| 0 <= i < |evictionList.nodes| && evictionList.nodes[i] == items[key];
      assert Placed(evictionList.nodes, View(), i);
      KeysAgree();
      WithoutIs(View(), i);
      LookupIs(View(), i);
    }

    /** Drops a cached key's node from the list and the map. */
    method Drop(key: string)
      requires Shaped() && key in items
      modifies `items, evictionList, evictionList.nodes
      ensures Shaped() && View() == Without(old(View()), key) && |View()| == |old(View())| - 1
      ensures forall n :: n in evictionList.nodes ==> n in old(evictionList.nodes)
    {
      ghost var i := Position(key);
      RemoveFromMap(items, evictionList.nodes, i);
      var node := items[key];
      items := items - {key};
      evictionList.Remove(node, i);
    }

    /** Moves a cached key's node to the front of the list. */
    method Promote(key: string)
      requires Shaped() && key in items
      modifies evictionList, evictionList.nodes
      ensures Shaped() && items[key].Entry() == old(items[key].Entry())
      ensures View() == [old(items[key].Entry())] + Without(old(View()), key)
      ensures forall n :: n in evictionList.nodes ==> n in old(evictionList.nodes)
    {
      ghost var i := Position(key);
      MovedMap(items, evictionList.nodes, i);
      evictionList.MoveToFront(items[key], i);
      assert Placed(evictionList.nodes, View(), 0);
    }

    method Rewrite(key: string, value: V, expiresAt: int)
      requires Shaped() && key in items
      modifies evictionList, evictionList.nodes
      ensures Shaped() && Lookup(old(View()), key).Some?
      ensures View() == [Item(key, value, expiresAt)] + Without(old(View()), key)
      ensures forall n :: n in evictionList.nodes ==> n in old(evictionList.nodes)
    {
      ghost var i := Position(key);
      ghost var s := View();
      var node := items[key];
      evictionList.Overwrite(node, value, expiresAt, i);
      WithoutUpdate(s, i, Item(key, value, expiresAt));
      assert Placed(evictionList.nodes, View(), i);
      Promote(key);
    }

    method Add(key: string, value: V, expiresAt: int)
      requires Shaped() && key !in items && |View()| < maxCapacity
      modifies `items, evictionList, evictionList.nodes
      ensures Shaped() && View() == [Item(key, value, expiresAt)] + old(View())
      ensures forall n :: n in evictionList.nodes ==> n in old(evictionList.nodes) || fresh(n)
    {
      var node := new Node<V>(key, value, expiresAt);
      AddToMap(items, evictionList.nodes, node);
      items := items[key := node];
      evictionList.PushFront(node);
    }

    /** Takes the least recently used entry out. */
    method EvictTail()
      requires Shaped() && View() != []
      modifies `items, evictionList, evictionList.nodes
      ensures Shaped() && View() == old(View())[..|old(View())| - 1]
      ensures items.Keys <= old(items.Keys)
      ensures forall n :: n in evictionList.nodes ==> n in old(evictionList.nodes)
    {
      ghost var nodes, s := evictionList.nodes, View();
      ghost var n := |nodes| - 1;
      RemoveFromMap(items, nodes, n);
      var tail := evictionList.RemoveTail();
      items := items - {tail.key};
      assert RemoveAt(s, n) == s[..n];
    }

    lemma DeleteCases(key: string)
      requires Shaped()
      ensures Lookup(View(), key).Some? <==> HasKey(View(), key)
      ensures forall i :: EntryAt(View(), i, key) ==>
        Without(View(), key) == View()[..i] + View()[i + 1..]
      ensures !HasKey(View(), key) ==> Without(View(), key) == View()
    {
      KeysAgree();
      if HasKey(View(), key) {
        assert exists i :: EntryAt(View(), i, key) by {
          var i :| 0 <= i < |View()| && View()[i].key == key;
          assert EntryAt(View(), i, key);
        }
      } else {
        GetMissing(View(), key, 0);
      }
      forall i | EntryAt(View(), i, key)
        ensures Without(View(), key) == View()[..i] + View()[i + 1..] && Lookup(View(), key).Some?
      {
        WithoutIs(View(), i);
        LookupIs(View(), i);
      }
    }

    /** What a set comes to: the entry leads, and the others keep their order. */
    lemma SetCases(it: Item<V>)
      requires Shaped()
      ensures var after := AfterSet(View(), maxCapacity, it);
        && after != [] && after[0] == it
        && (forall i :: EntryAt(View(), i, it.key) ==> after[1..] == View()[..i] + View()[i + 1..])
        && ((forall x :: x in View() ==> x.key != it.key) ==>
             after[1..] == if |View()| >= maxCapacity then View()[..|View()| - 1] else View())
    {
      KeysAgree();
      AfterSetCases(View(), maxCapacity, it);
    }

    method Delete(key: string) returns (ok: bool)
      requires Valid()
      modifies this, evictionList, evictionList.nodes
      ensures Valid() && (ok <==> Lookup(old(View()), key).Some?) && View() == Without(old(View()), key)
      ensures ok <==> HasKey(old(View()), key)
      ensures forall i :: EntryAt(old(View()), i, key) ==>
        View() == old(View())[..i] + old(View())[i + 1..]
      ensures !ok ==> View() == old(View())
      ensures forall n :: n in evictionList.nodes ==> n in old(evictionList.nodes)
    {
      QueuedWithout(View(), key, Queue());
      DeleteCases(key);
      if key !in items {
        NotCached(key);
        return false;
      }
      ghost var _ := Position(key);
      Drop(key);
      return true;
    }

    method Fetch(key: string, now: int) returns (value: Option<V>)
      requires Valid()
      modifies this, evictionList, evictionList.nodes
      ensures Valid() && value == Found(old(View()), key, now) && View() == AfterGet(old(View()), key, now)
      ensures forall n :: n in evictionList.nodes ==> n in old(evictionList.nodes)
    {
      QueuedAfterGet(View(), key, now, Queue());
      if key !in items {
        NotCached(key);
        return None;
      }
      var node := items[key];
      ghost var _ := Position(key);
      if node.expiresAt > 0 && now >= node.expiresAt {
        Drop(key);
        return None;
      }
      Promote(key);
      return Some(node.value);
    }

    /** An expired entry is dropped and never returned; any other is returned and moves to the front. */
    method Get(key: string, now: int) returns (value: Option<V>)
      requires Valid()
      modifies this, evictionList, evictionList.nodes
      ensures Valid() && value == Found(old(View()), key, now) && View() == AfterGet(old(View()), key, now)
      ensures value.Some? ==>
        exists it :: it in old(View()) && it.key == key && it.value == value.value &&
                     (it.expiresAt == 0 || now < it.expiresAt)
      ensures forall i :: EntryAt(old(View()), i, key) ==>
        if old(View())[i].expiresAt == 0 || now < old(View())[i].expiresAt
        then value == Some(old(View())[i].value) && View() == [old(View())[i]] + old(View())[..i] + old(View())[i + 1..]
        else value == None && View() == old(View())[..i] + old(View())[i + 1..]
      ensures (forall it :: it in old(View()) ==> it.key != key) ==> value == None && View() == old(View())
      ensures forall n :: n in evictionList.nodes ==> n in old(evictionList.nodes)
    {
      KeysAgree();
      GetCases(View(), key, now, Queue());
      value := Fetch(key, now);
    }

    /** Writes an entry and moves it to the front; a new one makes room first. */
    method Store(key: string, value: V, expiresAt: int)
      requires Shaped()
      modifies `items, evictionList, evictionList.nodes
      ensures Shaped() && View() == AfterSet(old(View()), maxCapacity, Item(key, value, expiresAt))
      ensures forall n :: n in evictionList.nodes ==> n in old(evictionList.nodes) || fresh(n)
    {
      if key in items {
        Rewrite(key, value, expiresAt);
      } else {
        StoreNew(key, value, expiresAt);
      }
    }

    method StoreNew(key: string, value: V, expiresAt: int)
      requires Shaped() && key !in items
      modifies `items, evictionList, evictionList.nodes
      ensures Shaped() && View() == AfterSet(old(View()), maxCapacity, Item(key, value, expiresAt))
      ensures forall n :: n in evictionList.nodes ==> n in old(evictionList.nodes) || fresh(n)
    {
      ghost var after := NewEntry(key, value, expiresAt);
      MakeRoom();
      Add(key, value, expiresAt);
      assert View() == after;
    }

    lemma NewEntry(key: string, value: V, expiresAt: int) returns (after: seq<Item<V>>)
      requires Shaped() && key !in items
      ensures after == AfterSet(View(), maxCapacity, Item(key, value, expiresAt))
      ensures after == [Item(key, value, expiresAt)] + if |View()| >= maxCapacity then View()[..|View()| - 1]
        else View()
    {
      NotCached(key);
      after := AfterSet(View(), maxCapacity, Item(key, value, expiresAt));
    }

    /** Drops the least recently used entry when the cache is at its capacity. */
    method MakeRoom()
      requires Shaped()
      modifies `items, evictionList, evictionList.nodes
      ensures Shaped() && |View()| < maxCapacity && items.Keys <= old(items.Keys)
      ensures View() == if |old(View())| >= maxCapacity then old(View())[..|old(View())| - 1] else old(View())
      ensures forall n :: n in evictionList.nodes ==> n in old(evictionList.nodes)
    {
      if |items| >= maxCapacity {
        EvictTail();
      }
    }

    /** Queues the expiry of an entry that has one. */
    method Enqueue(key: string, ttl: int, now: int) returns (expiresAt: int)
      requires ttlQueue.Valid()
      modifies ttlQueue
      ensures ttlQueue.Valid() && expiresAt == ExpiryTime(ttl, now)
      ensures Queue() == if ttl > 0 then old(Queue()) + multiset{TTLEntry(key, now + ttl)} else old(Queue())
    {
      if ttl > 0 {
        ttlQueue.Push(TTLEntry(key, now + ttl));
      }
      return ExpiryTime(ttl, now);
    }

    /** Stores an entry and queues its expiry. */
    method Record(key: string, value: V, ttl: int, now: int)
      requires Valid() && now >= 0
      modifies this, evictionList, evictionList.nodes, ttlQueue
      ensures Valid() && View() == AfterSet(old(View()), maxCapacity, Item(key, value, ExpiryTime(ttl, now)))
      ensures forall n :: n in evictionList.nodes ==> n in old(evictionList.nodes) || fresh(n)
      ensures Queue() == if ttl > 0 then old(Queue()) + multiset{TTLEntry(key, now + ttl)} else old(Queue())
    {
      var expiresAt := Enqueue(key, ttl, now);
      QueuedAfterSet(View(), maxCapacity, Item(key, value, expiresAt), Queue());
      Store(key, value, expiresAt);
    }

    method Set(key: string, value: V, ttl: int, now: int)
      requires Valid() && now >= 0
      modifies this, evictionList, evictionList.nodes, ttlQueue
      ensures Valid() && View() == AfterSet(old(View()), maxCapacity, Item(key, value, ExpiryTime(ttl, now)))
      ensures View() != [] && View()[0] == Item(key, value, if ttl > 0 then now + ttl else 0)
      ensures forall i :: EntryAt(old(View()), i, key) ==>
        View()[1..] == old(View())[..i] + old(View())[i + 1..]
      ensures (forall it :: it in old(View()) ==> it.key != key) ==>
        View()[1..] == if |old(View())| >= maxCapacity then old(View())[..|old(View())| - 1] else old(View())
      ensures forall n :: n in evictionList.nodes ==> n in old(evictionList.nodes) || fresh(n)
      ensures Queue() == if ttl > 0 then old(Queue()) + multiset{TTLEntry(key, now + ttl)} else old(Queue())
    {
      SetCases(Item(key, value, ExpiryTime(ttl, now)));
      Record(key, value, ttl, now);
    }

    /** Drops an entry that came due, unless its key has been set again to expire later. */
    method DropIfDue(key: string, now: int) returns (evicted: nat)
      requires Shaped()
      modifies `items, evictionList, evictionList.nodes
      ensures Shaped() && View() == AfterDue(old(View()), key, now)
      ensures forall n :: n in evictionList.nodes ==> n in old(evictionList.nodes)
      ensures evicted == |old(View())| - |View()|
    {
      if key !in items {
        NotCached(key);
        return 0;
      }
      ghost var i := Position(key);
      if items[key].expiresAt > now {
        return 0;
      }
      Drop(key);
      return 1;
    }

    /** Takes the earliest entry of the heap if it has come due, and drops what it was for. */
    method SweepOne(now: int) returns (e: Option<TTLEntry>, evicted: nat)
      requires Valid()
      modifies this, evictionList, evictionList.nodes, ttlQueue
      ensures Valid() && forall n :: n in evictionList.nodes ==> n in old(evictionList.nodes)
      ensures e.None? ==>
        View() == old(View()) && Queue() == old(Queue()) && (forall x :: x in Queue() ==> x.expiresAt > now)
      ensures e.Some? ==> e.value.expiresAt <= now && |ttlQueue.data| == |old(ttlQueue.data)| - 1
      ensures e.Some? ==>
        old(Queue()) == Queue() + multiset{e.value} && View() == AfterDue(old(View()), e.value.key, now)
      ensures evicted == |old(View())| - |View()|
    {
      e := ttlQueue.Peek();
      if e.None? || e.value.expiresAt > now {
        forall x | x in Queue()
          ensures x.expiresAt > now
        {
          assert x in ttlQueue.data && AtMost(Earlier, e.value, x);
        }
        return None, 0;
      }
      evicted := PopDue(e.value, now);
    }

    /** Takes the first entry of the heap, which came due, and drops what it was for. */
    method PopDue(e: TTLEntry, now: int) returns (evicted: nat)
      requires Valid() && ttlQueue.data != [] && ttlQueue.data[0] == e && e.expiresAt <= now
      modifies this, evictionList, evictionList.nodes, ttlQueue
      ensures Valid() && forall n :: n in evictionList.nodes ==> n in old(evictionList.nodes)
      ensures |ttlQueue.data| == |old(ttlQueue.data)| - 1 && old(Queue()) == Queue() + multiset{e}
      ensures View() == AfterDue(old(View()), e.key, now) && evicted == |old(View())| - |View()|
    {
      KeysAgree();
      QueuedAfterDue(View(), e, now, Queue());
      var _ := ttlQueue.Pop();
      evicted := DropIfDue(e.key, now);
    }

    /** Sweeps out the entries that came due, earliest first. */
    method EvictExpired(now: int) returns (evicted: nat)
      requires Valid()
      modifies this, evictionList, evictionList.nodes, ttlQueue
      ensures Valid() && View() == Kept(old(View()), DueKeys(old(Queue()), now), now)
      ensures forall n :: n in evictionList.nodes ==> n in old(evictionList.nodes)
      ensures evicted == |old(View())| - |View()|
      ensures forall e :: Queue()[e] == if e.expiresAt <= now then 0 else old(Queue())[e]
      ensures forall it :: it in View() ==> it.expiresAt == 0 || now < it.expiresAt
    {
      ghost var s, q := View(), Queue();
      ghost var popped: multiset<TTLEntry> := multiset{};
      KeysAgree();
      SweepBegins(s, q, now);
      evicted := 0;
      while true
        invariant Valid() && (forall n :: n in evictionList.nodes ==> n in old(evictionList.nodes))
        invariant SweepHolds(s, q, popped, View(), Queue(), now) && evicted == |s| - |View()|
        decreases |ttlQueue.data|
      {
        ghost var before, queued := View(), Queue();
        var e, n := SweepOne(now);
        if e.None? {
          break;
        }
        SweptMore(s, q, popped, before, queued, e.value, View(), Queue(), now);
        popped, evicted := popped + multiset{e.value}, evicted + n;
      }
      SweptAll(s, q, popped, View(), Queue(), now);
    }
  }

  /** Part of a sweep: the entries popped so far came due, and their keys make up what it has dropped. */
  ghost predicate SweepHolds<V>(s: seq<Item<V>>, q: multiset<TTLEntry>, popped: multiset<TTLEntry>, view: seq<Item<V>>,
                                left: multiset<TTLEntry>, now: int) {
    && DistinctKeys(s) && q == popped + left && (forall e :: e in popped ==> e.expiresAt <= now)
    && view == Kept(s, DueKeys(popped, now), now)
  }

  lemma SweepBegins<V>(s: seq<Item<V>>, q: multiset<TTLEntry>, now: int)
    requires DistinctKeys(s)
    ensures SweepHolds(s, q, multiset{}, s, q, now)
  {
    KeptNothing(s, now);
    assert DueKeys(multiset{}, now) == {};
  }

  lemma SweptMore<V>(s: seq<Item<V>>, q: multiset<TTLEntry>, popped: multiset<TTLEntry>, view: seq<Item<V>>,
                     left: multiset<TTLEntry>,
                     e: TTLEntry, view': seq<Item<V>>, left': multiset<TTLEntry>, now: int)
    requires SweepHolds(s, q, popped, view, left, now) && e.expiresAt <= now && left == left' + multiset{e}
    requires view' == AfterDue(view, e.key, now)
    ensures SweepHolds(s, q, popped + multiset{e}, view', left', now)
  {
    AfterDueIsKept(s, DueKeys(popped, now), now, e.key);
    assert DueKeys(popped + multiset{e}, now) == DueKeys(popped, now) + {e.key};
  }

  lemma SweptAll<V>(s: seq<Item<V>>, q: multiset<TTLEntry>, popped: multiset<TTLEntry>, view: seq<Item<V>>,
                    left: multiset<TTLEntry>, now: int)
    requires SweepHolds(s, q, popped, view, left, now) && Queued(view, left)
    requires forall x :: x in left ==> x.expiresAt > now
    ensures view == Kept(s, DueKeys(q, now), now)
    ensures forall it :: it in view ==> it.expiresAt == 0 || now < it.expiresAt
    ensures forall e :: left[e] == if e.expiresAt <= now then 0 else q[e]
  {
    assert DueKeys(popped, now) == DueKeys(q, now);
    forall e
      ensures left[e] == if e.expiresAt <= now then 0 else q[e]
    {
      assert q[e] == popped[e] + left[e];
      assert popped[e] > 0 ==> e in popped;
      assert left[e] > 0 ==> e in left;
    }
  }
}
