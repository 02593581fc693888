/** An open-addressing hash table with linear probing and tombstones, as a map. */
module HashMaps {
  import opened Types

  datatype Slot<+V> = Empty | Occupied(key: string, value: V) | Tombstone

  // ---------- probing ----------

  function Home(hash: string -> nat, key: string, n: nat): (h: nat)
    requires n > 0
    ensures h < n
  {
    hash(key) % n
  }

  function NextSlot(i: nat, n: nat): (j: nat)
    requires i < n
    ensures j < n
  {
    if i + 1 == n then 0 else i + 1
  }

  /** The first d slots of the probe sequence from home h are not empty and do not hold the key. */
  ghost predicate Passed<V>(slots: seq<Slot<V>>, h: nat, d: int, key: string)
    requires h < |slots|
  {
    forall j :: 0 <= j < |slots| && Distance(h, j, |slots|) < d ==> !slots[j].Empty? && !IsKey(slots[j], key)
  }

  predicate IsKey<V>(s: Slot<V>, key: string) {
    s.Occupied? && s.key == key
  }

  /** A search for the key in slot i meets no empty slot on its way there. */
  ghost predicate Reachable<V>(slots: seq<Slot<V>>, hash: string -> nat, i: nat)
    requires i < |slots| && slots[i].Occupied?
  {
    var h := Home(hash, slots[i].key, |slots|);
    forall j :: 0 <= j < |slots| && Distance(h, j, |slots|) < Distance(h, i, |slots|) ==> !slots[j].Empty?
  }

  // ---------- counting ----------

  function Occupancy<V>(slots: seq<Slot<V>>): nat {
    if slots == [] then 0 else Occupancy(slots[..|slots| - 1]) + (if slots[|slots| - 1].Occupied? then 1 else 0)
  }

  function Tombstones<V>(slots: seq<Slot<V>>): nat {
    if slots == [] then 0 else Tombstones(slots[..|slots| - 1]) + (if slots[|slots| - 1].Tombstone? then 1 else 0)
  }

  function One(b: bool): int {
    if b then 1 else 0
  }

  lemma {:induction false} CountUpdate<V>(slots: seq<Slot<V>>, i: nat, s: Slot<V>)
    requires i < |slots|
    ensures Occupancy(slots[i := s]) == Occupancy(slots) + One(s.Occupied?) - One(slots[i].Occupied?)
    ensures Tombstones(slots[i := s]) == Tombstones(slots) + One(s.Tombstone?) - One(slots[i].Tombstone?)
    decreases |slots|
  {
    var n := |slots| - 1;
    if i == n {
      assert slots[i := s][..n] == slots[..n];
    } else {
      CountUpdate(slots[..n], i, s);
      assert slots[i := s][..n] == slots[..n][i := s];
    }
  }

  lemma {:induction false} FullCount<V>(slots: seq<Slot<V>>)
    requires forall i :: 0 <= i < |slots| ==> !slots[i].Empty?
    ensures Occupancy(slots) + Tombstones(slots) == |slots|
    decreases |slots|
  {
    if slots != [] {
      FullCount(slots[..|slots| - 1]);
    }
  }

  lemma {:induction false} EmptyCount<V>(slots: seq<Slot<V>>)
    requires forall i :: 0 <= i < |slots| ==> slots[i].Empty?
    ensures Occupancy(slots) == 0 && Tombstones(slots) == 0
    decreases |slots|
  {
    if slots != [] {
      EmptyCount(slots[..|slots| - 1]);
    }
  }

  // ---------- the table ----------

  /** places says in which slot each key is; the table and it are each other's inverse. */
  ghost predicate SlotsHold<V>(slots: seq<Slot<V>>, hash: string -> nat, places: map<string, nat>) {
    && (forall k :: k in places ==> places[k] < |slots| && IsKey(slots[places[k]], k))
    && (forall i :: 0 <= i < |slots| && slots[i].Occupied? ==> slots[i].key in places && places[slots[i].key] == i)
    && (forall i :: 0 <= i < |slots| && slots[i].Occupied? ==> Reachable(slots, hash, i))
  }

  /** At most 70% of the slots have ever been used, so every search comes to an empty one. */
  ghost predicate LoadHolds<V>(slots: seq<Slot<V>>, count: nat, tombstones: nat) {
    && |slots| >= 8
    && count == Occupancy(slots) && tombstones == Tombstones(slots)
    && (count + tombstones) * 10 < |slots| * 7
  }

  ghost function Contents<V>(slots: seq<Slot<V>>, places: map<string, nat>): map<string, V> {
    map k | k in places && places[k] < |slots| && slots[places[k]].Occupied? :: slots[places[k]].value
  }

  /** A search that passes the key's slot has found it: so one that reaches an empty slot shows that it is absent. */
  lemma EmptyMeansAbsent<V>(slots: seq<Slot<V>>, hash: string -> nat, places: map<string, nat>, key: string, i: nat)
    requires |slots| > 0 && SlotsHold(slots, hash, places) && i < |slots| && slots[i].Empty?
    requires Passed(slots, Home(hash, key, |slots|), Distance(Home(hash, key, |slots|), i, |slots|), key)
    ensures key !in places
  {
  }

  /** A search over every slot contradicts the load limit. */
  lemma SearchEnds<V>(slots: seq<Slot<V>>, count: nat, tombstones: nat, h: nat, d: int, key: string)
    requires LoadHolds(slots, count, tombstones) && h < |slots| && Passed(slots, h, d, key)
    ensures d < |slots|
  {
    if d >= |slots| {
      FullCount(slots);
    }
  }

  lemma ProbeNext<V>(slots: seq<Slot<V>>, h: nat, i: nat, key: string)
    requires h < |slots| && i < |slots| && Passed(slots, h, Distance(h, i, |slots|), key)
    requires !slots[i].Empty? && !IsKey(slots[i], key)
    ensures Passed(slots, h, Distance(h, i, |slots|) + 1, key)
    ensures Distance(h, i, |slots|) + 1 < |slots| ==>
      Distance(h, NextSlot(i, |slots|), |slots|) == Distance(h, i, |slots|) + 1
  {
  }

  /** Writing a new key to a slot on its probe sequence, before which there is no empty slot. */
  lemma InsertKeeps<V>(slots: seq<Slot<V>>, hash: string -> nat, places: map<string, nat>, i: nat, key: string,
                       value: V)
    requires |slots| > 0 && SlotsHold(slots, hash, places) && i < |slots| && !slots[i].Occupied? && key !in places
    requires NoEmptyBefore(slots, Home(hash, key, |slots|), i)
    ensures SlotsHold(slots[i := Occupied(key, value)], hash, places[key := i])
    ensures Contents(slots[i := Occupied(key, value)], places[key := i]) == Contents(slots, places)[key := value]
  {
    var slots' := slots[i := Occupied(key, value)];
    forall j | 0 <= j < |slots'| && slots'[j].Occupied?
      ensures Reachable(slots', hash, j)
    {
      if j != i { assert Reachable(slots, hash, j); }
    }
  }

  lemma UpdateKeeps<V>(slots: seq<Slot<V>>, hash: string -> nat, places: map<string, nat>, i: nat, key: string,
                       value: V)
    requires SlotsHold(slots, hash, places) && i < |slots| && IsKey(slots[i], key)
    ensures SlotsHold(slots[i := Occupied(key, value)], hash, places)
    ensures Contents(slots[i := Occupied(key, value)], places) == Contents(slots, places)[key := value]
  {
    var slots' := slots[i := Occupied(key, value)];
    forall j | 0 <= j < |slots'| && slots'[j].Occupied?
      ensures Reachable(slots', hash, j)
    {
      assert Reachable(slots, hash, j);
    }
  }

  /** A tombstone keeps every other key's probe sequence unbroken. */
  lemma DeleteKeeps<V>(slots: seq<Slot<V>>, hash: string -> nat, places: map<string, nat>, i: nat, key: string)
    requires SlotsHold(slots, hash, places) && i < |slots| && IsKey(slots[i], key)
    ensures SlotsHold(slots[i := Tombstone], hash, places - {key})
    ensures Contents(slots[i := Tombstone], places - {key}) == Contents(slots, places) - {key}
  {
  }

  /** The table size: a power of two, so that masking the hash is taking its remainder. */
  method NextPowerOfTwo(n: nat) returns (p: nat)
    requires n > 0
    ensures n <= p < 2 * n && exists e: nat :: p == Power2(e)
  {
    var e: nat := 0;
    p := 1;
    while p < n
      invariant p < 2 * n && p == Power2(e)
    {
      p, e := 2 * p, e + 1;
    }
  }

  class HashTable<V> {
    const hash: string -> nat
    var slots: array<Slot<V>>
    var count: nat
    var tombstones: nat
    ghost var places: map<string, nat>

    ghost predicate Valid()
      reads this, slots
    {
      LoadHolds(slots[..], count, tombstones) && SlotsHold(slots[..], hash, places)
    }

    /** What the table maps its keys to. */
    ghost function View(): map<string, V>
      reads this, slots
    {
      Contents(slots[..], places)
    }

    constructor (hash: string -> nat, minCap: int)
      ensures Valid() && View() == map[] && fresh(slots) && slots.Length >= minCap
    {
      this.hash := hash;
      var capacity := NextPowerOfTwo(if minCap < 8 then 8 else minCap);
      slots := new Slot<V>[capacity](_ => Empty);
      count, tombstones, places := 0, 0, map[];
      new;
      EmptyCount(slots[..]);
    }

    predicate NeedsGrow()
      reads this
    {
      (count + tombstones + 1) * 10 >= slots.Length * 7
    }

    /** The slot that holds the key, or nothing once the search meets an empty slot. */
    method Find(key: string) returns (found: Option<nat>)
      requires Valid()
      ensures found.Some? <==> key in View()
      ensures found.Some? ==> found.value < slots.Length && IsKey(slots[found.value], key) && places[key] == found.value
    {
      var idx: nat := Home(hash, key, slots.Length);
      ghost var h: nat, s := idx, slots[..];
      while true
        invariant idx < slots.Length && Passed(s, h, Distance(h, idx, |s|), key)
        decreases slots.Length - Distance(h, idx, slots.Length)
      {
        if slots[idx].Empty? {
          EmptyMeansAbsent(s, hash, places, key, idx);
          return None;
        }
        if IsKey(slots[idx], key) {
          assert IsKey(s[idx], key);
          return Some(idx);
        }
        ProbeNext(s, h, idx, key);
        SearchEnds(s, count, tombstones, h, Distance(h, idx, |s|) + 1, key);
        idx := NextSlot(idx, slots.Length);
      }
    }

    method Get(key: string) returns (value: Option<V>)
      requires Valid()
      ensures value == if key in View() then Some(View()[key]) else None
    {
      var found := Find(key);
      if found.None? {
        return None;
      }
      return Some(slots[found.value].value);
    }

    method Delete(key: string) returns (ok: bool)
      requires Valid()
      modifies this, slots
      ensures Valid() && slots == old(slots) && (ok <==> key in old(View()))
      ensures View() == old(View()) - {key}
    {
      var found := Find(key);
      if found.None? {
        assert View() - {key} == View();
        return false;
      }
      ghost var s := slots[..];
      DeleteKeeps(s, hash, places, found.value, key);
      CountUpdate(s, found.value, Tombstone);
      slots[found.value] := Tombstone;
      assert slots[..] == s[found.value := Tombstone];
      count, tombstones, places := count - 1, tombstones + 1, places - {key};
      return true;
    }

    /** Where a put writes: the key's own slot, or the first tombstone on the way to the empty slot that ends the
        search, or that empty slot. */
    method FindForPut(key: string) returns (hit: bool, at: nat)
      requires Valid()
      ensures at < slots.Length
      ensures hit ==> IsKey(slots[at], key)
      ensures !hit ==>
        !slots[at].Occupied? && key !in places && NoEmptyBefore(slots[..], Home(hash, key, slots.Length), at)
    {
      var idx: nat := Home(hash, key, slots.Length);
      var firstTombstone: Option<nat> := None;
      ghost var h: nat, s := idx, slots[..];
      while true
        invariant idx < slots.Length && Passed(s, h, Distance(h, idx, |s|), key)
        invariant firstTombstone.Some? ==> TombstoneBefore(s, h, firstTombstone.value, idx)
        decreases slots.Length - Distance(h, idx, slots.Length)
      {
        if slots[idx].Empty? {
          EmptyMeansAbsent(s, hash, places, key, idx);
          return false, if firstTombstone.Some? then firstTombstone.value else idx;
        }
        if slots[idx].Tombstone? {
          if firstTombstone.None? {
            firstTombstone := Some(idx);
          }
        } else if slots[idx].key == key {
          return true, idx;
        }
        ProbeNext(s, h, idx, key);
        SearchEnds(s, count, tombstones, h, Distance(h, idx, |s|) + 1, key);
        idx := NextSlot(idx, slots.Length);
      }
    }

    /** Writes a value under a key. */
    method Put(key: string, value: V)
      requires Valid() && !NeedsGrow()
      modifies this, slots
      ensures Valid() && slots == old(slots) && View() == old(View())[key := value]
      ensures tombstones <= old(tombstones) && count + tombstones <= old(count + tombstones) + 1
      ensures key in old(View()) ==> count == old(count)
      ensures key !in old(View()) ==> count == old(count) + 1
    {
      var hit, at := FindForPut(key);
      ghost var s := slots[..];
      CountUpdate(s, at, Occupied(key, value));
      if hit {
        UpdateKeeps(s, hash, places, at, key, value);
      } else {
        InsertKeeps(s, hash, places, at, key, value);
        if slots[at].Tombstone? {
          tombstones := tombstones - 1;
        }
        count, places := count + 1, places[key := at];
      }
      slots[at] := Occupied(key, value);
      assert slots[..] == s[at := Occupied(key, value)];
    }

    /** Inserts or updates, making the table larger first when it is 70% full. */
    method Set(key: string, value: V)
      requires Valid()
      modifies this, slots
      ensures Valid() && View() == old(View())[key := value]
      ensures slots == old(slots) || fresh(slots)
      ensures fresh(slots) <==> old((count + tombstones + 1) * 10 >= slots.Length * 7)
      ensures !fresh(slots) ==> count <= old(count) + 1 && tombstones <= old(tombstones)
      ensures slots.Length == if fresh(slots) then 2 * old(slots.Length) else old(slots.Length)
      decreases if NeedsGrow() then 2 else 0, 0
    {
      if NeedsGrow() {
        Grow();
      }
      Put(key, value);
    }

    /** Moves every key to a table of twice the size; no Set on the way makes the table grow again. */
    method Grow()
      requires Valid()
      modifies this, slots
      ensures Valid() && View() == old(View()) && fresh(slots) && slots.Length == 2 * old(slots.Length)
      ensures !NeedsGrow() && tombstones == 0
      decreases 1
    {
      var oldSlots := slots[..];
      ghost var where0 := places;
      slots := new Slot<V>[2 * |oldSlots|](_ => Empty);
      count, tombstones, places := 0, 0, map[];
      EmptyCount(slots[..]);
      ReinsertAll(oldSlots, where0);
    }

    method ReinsertAll(s: seq<Slot<V>>, ghost where0: map<string, nat>)
      requires Valid() && places == map[] && count == 0 && tombstones == 0 && slots.Length == 2 * |s|
      requires SlotsHold(s, hash, where0) && (Occupancy(s) + Tombstones(s)) * 10 < |s| * 7
      modifies this, slots
      ensures Valid() && slots == old(slots) && View() == Contents(s, where0)
      ensures tombstones == 0 && count <= Occupancy(s)
      decreases 0, 2
    {
      for i := 0 to |s|
        invariant Valid() && slots == old(slots) && tombstones == 0 && count <= Occupancy(s[..i])
        invariant View() == Contents(s, UpTo(where0, i))
      {
        CopyStep(s, hash, where0, i);
        Reinsert(s[i]);
      }
      CopyEnd(s, hash, where0);
    }

    /** Sets what an old slot held, if it held anything; the table has room. */
    method Reinsert(slot: Slot<V>)
      requires Valid() && !NeedsGrow()
      modifies this, slots
      ensures Valid() && slots == old(slots)
      ensures View() == if slot.Occupied? then old(View())[slot.key := slot.value] else old(View())
      ensures tombstones <= old(tombstones) && count <= old(count) + One(slot.Occupied?)
      decreases 0, 1
    {
      if slot.Occupied? {
        Set(slot.key, slot.value);
      }
    }
  }

  ghost predicate NoEmptyBefore<V>(slots: seq<Slot<V>>, h: nat, i: nat)
    requires h < |slots| && i < |slots|
  {
    forall j :: 0 <= j < |slots| && Distance(h, j, |slots|) < Distance(h, i, |slots|) ==> !slots[j].Empty?
  }

  ghost predicate TombstoneBefore<V>(slots: seq<Slot<V>>, h: nat, t: nat, i: nat)
    requires h < |slots| && i < |slots|
  {
    t < |slots| && slots[t].Tombstone? && Distance(h, t, |slots|) < Distance(h, i, |slots|)
  }

  /** The keys of the first n slots. */
  ghost function UpTo(places: map<string, nat>, n: nat): map<string, nat> {
    map k | k in places && places[k] < n :: places[k]
  }

  lemma UpToStep<V>(s: seq<Slot<V>>, hash: string -> nat, places: map<string, nat>, i: nat)
    requires SlotsHold(s, hash, places) && i < |s|
    ensures s[i].Occupied? ==> UpTo(places, i + 1) == UpTo(places, i)[s[i].key := i]
    ensures !s[i].Occupied? ==> UpTo(places, i + 1) == UpTo(places, i)
  {
  }

  lemma CopyStep<V>(s: seq<Slot<V>>, hash: string -> nat, places: map<string, nat>, i: nat)
    requires SlotsHold(s, hash, places) && i < |s| && (Occupancy(s) + Tombstones(s)) * 10 < |s| * 7
    ensures s[i].Occupied? ==> Contents(s, UpTo(places, i + 1)) == Contents(s, UpTo(places, i))[s[i].key := s[i].value]
    ensures !s[i].Occupied? ==> Contents(s, UpTo(places, i + 1)) == Contents(s, UpTo(places, i))
    ensures Occupancy(s[..i + 1]) == Occupancy(s[..i]) + One(s[i].Occupied?)
    ensures (Occupancy(s[..i]) + 1) * 10 < |s| * 14
  {
    UpToStep(s, hash, places, i);
    if s[i].Occupied? {
      ContentsUpdate(s, UpTo(places, i), s[i].key, i);
    }
    assert s[..i + 1][..i] == s[..i];
    TakeCount(s, i);
  }

  lemma ContentsUpdate<V>(s: seq<Slot<V>>, w: map<string, nat>, key: string, i: nat)
    requires i < |s| && IsKey(s[i], key)
    ensures Contents(s, w[key := i]) == Contents(s, w)[key := s[i].value]
  {
  }

  lemma {:induction false} TakeCount<V>(s: seq<Slot<V>>, i: nat)
    requires i <= |s|
    ensures Occupancy(s[..i]) <= Occupancy(s)
    decreases |s| - i
  {
    if i < |s| {
      TakeCount(s, i + 1);
      assert s[..i + 1][..i] == s[..i];
    } else {
      assert s[..i] == s;
    }
  }

  lemma CopyEnd<V>(s: seq<Slot<V>>, hash: string -> nat, places: map<string, nat>)
    requires SlotsHold(s, hash, places)
    ensures Contents(s, UpTo(places, |s|)) == Contents(s, places) && Occupancy(s[..|s|]) == Occupancy(s)
  {
    assert s[..|s|] == s;
  }
}
