/** What clients of the cache see over any sequence of calls: a list of entries and the expiry times still queued. */
module CacheClients {
  import opened Types
  import opened CacheSpecs
  import opened Caches

  /** The entries in most-recent-use order, and the queued expiry times. */
  datatype State<V> = State(entries: seq<Item<V>>, queue: set<TTLEntry>)

  datatype Call<V> =
    | SetCall(key: string, value: V, ttl: int)
    | GetCall(key: string)
    | DeleteCall(key: string)
    | SweepCall

  datatype Reply<V> = Quiet | Value(value: Option<V>) | Gone(ok: bool) | Swept(evicted: nat)

  /** A call and the time it is made. */
  datatype Timed<V> = Timed(call: Call<V>, now: nat)

  ghost function After<V>(s: State<V>, capacity: nat, t: Timed<V>): State<V> {
    match t.call
    case SetCall(key, value, ttl) =>
      State(AfterSet(s.entries, capacity, Item(key, value, ExpiryTime(ttl, t.now))),
            if ttl > 0 then s.queue + {TTLEntry(key, t.now + ttl)} else s.queue)
    case GetCall(key) => s.(entries := AfterGet(s.entries, key, t.now))
    case DeleteCall(key) => s.(entries := Without(s.entries, key))
    case SweepCall =>
      State(Kept(s.entries, DueKeys(multiset(s.queue), t.now), t.now), set e | e in s.queue && e.expiresAt > t.now)
  }

  ghost function Answer<V>(s: State<V>, t: Timed<V>): Reply<V> {
    match t.call
    case SetCall(_, _, _) => Quiet
    case GetCall(key) => Value(Found(s.entries, key, t.now))
    case DeleteCall(key) => Gone(Lookup(s.entries, key).Some?)
    case SweepCall => Swept(|s.entries| - KeptSize(s, t.now))
  }

  ghost function KeptSize<V>(s: State<V>, now: int): (n: nat)
    ensures n <= |s.entries|
  {
    KeptShorter(s.entries, DueKeys(multiset(s.queue), now), now);
    |Kept(s.entries, DueKeys(multiset(s.queue), now), now)|
  }

  ghost function AfterAll<V>(s: State<V>, capacity: nat, calls: seq<Timed<V>>): State<V>
    decreases |calls|
  {
    if calls == [] then s else AfterAll(After(s, capacity, calls[0]), capacity, calls[1..])
  }

  ghost function Answers<V>(s: State<V>, capacity: nat, calls: seq<Timed<V>>): seq<Reply<V>>
    decreases |calls|
  {
    if calls == [] then [] else [Answer(s, calls[0])] + Answers(After(s, capacity, calls[0]), capacity, calls[1..])
  }

  ghost predicate Shows<V>(c: Cache<V>, s: State<V>)
    reads c, c.evictionList, c.evictionList.nodes, c.ttlQueue
  {
    c.Valid() && c.View() == s.entries && forall e :: e in c.Queue() <==> e in s.queue
  }

  method ServeSet<V>(c: Cache<V>, key: string, value: V, ttl: int, now: nat, ghost s: State<V>)
    requires Shows(c, s)
    modifies c, c.evictionList, c.evictionList.nodes, c.ttlQueue
    ensures Shows(c, After(s, c.maxCapacity, Timed(SetCall(key, value, ttl), now)))
    ensures forall n :: n in c.evictionList.nodes ==> n in old(c.evictionList.nodes) || fresh(n)
  {
    c.Set(key, value, ttl, now);
  }

  method ServeSweep<V>(c: Cache<V>, now: nat, ghost s: State<V>) returns (evicted: nat)
    requires Shows(c, s)
    modifies c, c.evictionList, c.evictionList.nodes, c.ttlQueue
    ensures Shows(c, After(s, c.maxCapacity, Timed(SweepCall, now)))
    ensures Swept(evicted) == Answer(s, Timed(SweepCall, now))
    ensures forall n :: n in c.evictionList.nodes ==> n in old(c.evictionList.nodes) || fresh(n)
  {
    assert DueKeys(c.Queue(), now) == DueKeys(multiset(s.queue), now);
    evicted := c.EvictExpired(now);
  }

  method Serve<V>(c: Cache<V>, t: Timed<V>, ghost s: State<V>) returns (reply: Reply<V>)
    requires Shows(c, s)
    modifies c, c.evictionList, c.evictionList.nodes, c.ttlQueue
    ensures Shows(c, After(s, c.maxCapacity, t)) && reply == Answer(s, t)
    ensures forall n :: n in c.evictionList.nodes ==> n in old(c.evictionList.nodes) || fresh(n)
  {
    match t.call {
      case SetCall(key, value, ttl) =>
        ServeSet(c, key, value, ttl, t.now, s);
        reply := Quiet;
      case GetCall(key) =>
        var value := c.Get(key, t.now);
        reply := Value(value);
      case DeleteCall(key) =>
        var ok := c.Delete(key);
        reply := Gone(ok);
      case SweepCall =>
        var evicted := ServeSweep(c, t.now, s);
        reply := Swept(evicted);
    }
  }

  /** Every sequence of calls, at any times, is answered as by the list of entries. */
  method ServeAll<V>(c: Cache<V>, calls: seq<Timed<V>>, ghost s: State<V>) returns (replies: seq<Reply<V>>)
    requires Shows(c, s)
    modifies c, c.evictionList, c.evictionList.nodes, c.ttlQueue
    ensures Shows(c, AfterAll(s, c.maxCapacity, calls)) && replies == Answers(s, c.maxCapacity, calls)
    decreases |calls|
  {
    if calls == [] {
      return [];
    }
    var first := Serve(c, calls[0], s);
    var rest := ServeAll(c, calls[1..], After(s, c.maxCapacity, calls[0]));
    replies := [first] + rest;
  }

  /** A key set with a lifetime and then set again without one is swept out when the first lifetime ends. */
  method SweepTakesUnexpired() returns (c: Cache<nat>)
    ensures fresh(c) && c.Valid() && c.View() == []
  {
    c := new Cache<nat>(1);
    c.Set("k", 0, 1, 0);
    c.Set("k", 1, 0, 0);
    assert c.View() == [Item("k", 1, 0)];
    assert TTLEntry("k", 1) in c.Queue() && "k" in DueKeys(c.Queue(), 1);
    var evicted := c.EvictExpired(1);
  }
}
