/** Slotted pages: what inserting, deleting and compacting do to the tuples of one page. */
module SlottedPages {
  import opened Types
  import opened Buffers

  const HEADER_SIZE := 24
  const SLOT_SIZE := 4

  /** The tuples by slot, and the lowest byte in use; a deleted tuple leaves its slot behind. */
  datatype Page = Page(slots: seq<Option<Bytes>>, upper: nat) {
    function Lower(): nat {
      HEADER_SIZE + SLOT_SIZE * |slots|
    }

    function FreeSpace(): nat {
      if upper < Lower() then 0 else upper - Lower()
    }

    ghost predicate Valid() {
      Lower() <= upper <= PAGE_SIZE && Used(slots) <= PAGE_SIZE - upper
    }

    /** The live tuples by slot number. */
    ghost function Tuples(): map<nat, Bytes> {
      map i: nat | i < |slots| && slots[i].Some? :: slots[i].value
    }
  }

  const EMPTY_PAGE := Page([], PAGE_SIZE)

  /** The bytes of the live tuples. */
  function Used(slots: seq<Option<Bytes>>): nat {
    if slots == [] then 0
    else Used(slots[..|slots| - 1]) + (match slots[|slots| - 1] case None => 0 case Some(t) => |t|)
  }

  function Size(t: Option<Bytes>): nat {
    match t case None => 0 case Some(b) => |b|
  }

  lemma {:induction false} UsedUpdate(slots: seq<Option<Bytes>>, i: nat, t: Option<Bytes>)
    requires i < |slots|
    ensures Used(slots[i := t]) == Used(slots) - Size(slots[i]) + Size(t)
    decreases |slots|
  {
    var n := |slots| - 1;
    if i == n {
      assert slots[i := t][..n] == slots[..n];
    } else {
      UsedUpdate(slots[..n], i, t);
      assert slots[i := t][..n] == slots[..n][i := t];
    }
  }

  lemma UsedAppend(slots: seq<Option<Bytes>>, t: Option<Bytes>)
    ensures Used(slots + [t]) == Used(slots) + Size(t)
  {
  }

  /** The first tombstoned slot, or the next new one. */
  function FreeSlot(slots: seq<Option<Bytes>>): (i: nat)
    ensures i <= |slots| && (i < |slots| ==> slots[i] == None)
    ensures forall j :: 0 <= j < i ==> slots[j].Some?
  {
    if slots == [] || slots[0] == None then 0 else 1 + FreeSlot(slots[1..])
  }

  function Needed(p: Page, size: nat): nat {
    if FreeSlot(p.slots) < |p.slots| then size else size + SLOT_SIZE
  }

  predicate Fits(p: Page, size: nat) {
    Needed(p, size) <= p.FreeSpace()
  }

  function TupleInserted(p: Page, t: Bytes): (r: Page)
    requires Fits(p, |t|) && p.upper >= |t|
  {
    var i := FreeSlot(p.slots);
    if i < |p.slots| then Page(p.slots[i := Some(t)], p.upper - |t|) else Page(p.slots + [Some(t)], p.upper - |t|)
  }

  function TupleDeleted(p: Page, slot: nat): (r: Page) {
    if slot < |p.slots| then p.(slots := p.slots[slot := None]) else p
  }

  function Compacted(p: Page): (r: Page)
    requires Used(p.slots) <= PAGE_SIZE
  {
    p.(upper := PAGE_SIZE - Used(p.slots))
  }

  // ---------- what the operations keep ----------

  /** A tuple that fits goes to a slot that was not live, and no other tuple changes. */
  lemma TupleInsertedKeeps(p: Page, t: Bytes)
    requires p.Valid() && Fits(p, |t|)
    ensures TupleInserted(p, t).Valid()
    ensures FreeSlot(p.slots) !in p.Tuples() && TupleInserted(p, t).Tuples() == p.Tuples()[FreeSlot(p.slots) := t]
  {
    var i, r := FreeSlot(p.slots), TupleInserted(p, t);
    if i < |p.slots| {
      UsedUpdate(p.slots, i, Some(t));
    } else {
      UsedAppend(p.slots, Some(t));
    }
    InsertedTuples(p, r, i, t);
  }

  lemma InsertedTuples(p: Page, r: Page, i: nat, t: Bytes)
    requires i <= |p.slots| && (i < |p.slots| ==> p.slots[i].None?)
    requires r.slots == if i < |p.slots| then p.slots[i := Some(t)] else p.slots + [Some(t)]
    ensures i !in p.Tuples() && r.Tuples() == p.Tuples()[i := t]
  {
    assert r.Tuples().Keys == p.Tuples()[i := t].Keys;
  }

  lemma TupleDeletedKeeps(p: Page, slot: nat)
    requires p.Valid()
    ensures TupleDeleted(p, slot).Valid() && TupleDeleted(p, slot).Tuples() == p.Tuples() - {slot}
    ensures TupleDeleted(p, slot).upper == p.upper && |TupleDeleted(p, slot).slots| == |p.slots|
  {
    if slot < |p.slots| { UsedUpdate(p.slots, slot, None); }
    assert TupleDeleted(p, slot).Tuples().Keys == (p.Tuples() - {slot}).Keys;
  }

  /** Compaction changes no tuple and frees every byte no live tuple occupies. */
  lemma CompactedKeeps(p: Page)
    requires p.Valid()
    ensures Compacted(p).Valid() && Compacted(p).Tuples() == p.Tuples() && Compacted(p).FreeSpace() >= p.FreeSpace()
    ensures Compacted(p).FreeSpace() == PAGE_SIZE - p.Lower() - Used(p.slots)
  {
  }

  /** Slot numbers stay far below bit 15, which marks large values. */
  lemma SlotsAreFew(p: Page)
    requires p.Valid()
    ensures |p.slots| <= (PAGE_SIZE - HEADER_SIZE) / SLOT_SIZE < 0x8000
  {
  }

  // ---------- the page buffer ----------

  /** Offset 0 marks a tombstone. */
  datatype Slot = Slot(offset: nat, length: nat)

  class SlottedPage {
    var dir: seq<Slot>
    var upper: nat
    const data: array<byte>

    ghost predicate Valid()
      reads this, data
    {
      && data.Length == PAGE_SIZE
      && Packed(dir, upper)
      && HEADER_SIZE + SLOT_SIZE * |dir| <= upper <= PAGE_SIZE
      && LiveBytes(dir) <= PAGE_SIZE - upper
    }

    ghost function View(): (p: Page)
      requires Valid()
      reads this, data
      ensures p.Valid()
    {
      LiveBytesAre(dir, data[..]);
      Page(Tuples(dir, data[..]), upper)
    }

    constructor ()
      ensures Valid() && View() == EMPTY_PAGE && fresh(data)
    {
      dir, upper := [], PAGE_SIZE;
      data := new byte[PAGE_SIZE](_ => 0);
    }

    method FindFreeSlot() returns (i: nat)
      requires Valid()
      ensures i == FreeSlot(View().slots)
    {
      for j := 0 to |dir|
        invariant forall k :: 0 <= k < j ==> dir[k].offset > 0
      {
        if dir[j].offset == 0 {
          FreeSlotIs(View().slots, j);
          return j;
        }
      }
      FreeSlotIs(View().slots, |dir|);
      return |dir|;
    }

    method InsertTuple(tuple: Bytes) returns (slot: Option<nat>)
      requires Valid()
      modifies this, data
      ensures Valid()
      ensures slot.Some? <==> old(Fits(View(), |tuple|))
      ensures slot.Some? ==> View() == old(TupleInserted(View(), tuple)) && slot.value == old(FreeSlot(View().slots))
      ensures slot.None? ==> View() == old(View())
    {
      var i := FindFreeSlot();
      var lower := HEADER_SIZE + SLOT_SIZE * |dir|;
      var needed := if i < |dir| then |tuple| else |tuple| + SLOT_SIZE;
      if upper - lower < needed {
        return None;
      }
      var offset := upper - |tuple|;
      ghost var before, dir0 := data[..], dir;
      WriteBytes(data, offset, tuple);
      upper := offset;
      if i < |dir| {
        dir := dir[i := Slot(offset, |tuple|)];
      } else {
        dir := dir + [Slot(offset, |tuple|)];
      }
      InsertRefines(dir0, dir, before, data[..], old(upper), i, offset, tuple);
      return Some(i);
    }

    method GetTuple(slot: nat) returns (tuple: Option<Bytes>)
      requires Valid()
      ensures tuple == if slot in View().Tuples() then Some(View().Tuples()[slot]) else None
    {
      if slot >= |dir| || dir[slot].offset == 0 {
        return None;
      }
      return Some(data[dir[slot].offset..dir[slot].offset + dir[slot].length]);
    }

    method DeleteTuple(slot: nat)
      requires Valid()
      modifies this`dir
      ensures Valid() && View() == old(TupleDeleted(View(), slot))
    {
      if slot >= |dir| {
        return;
      }
      ghost var dir0 := dir;
      dir := dir[slot := Slot(0, 0)];
      DeleteRefines(dir0, data[..], upper, slot);
    }

    /** Copies one live tuple just below the bytes already packed, or records a tombstone. */
    method PackSlot(temp: array<byte>, packed: seq<Slot>, packedUpper: nat, slot: Slot, ghost content: Option<Bytes>)
      returns (newDir: seq<Slot>, newUpper: nat)
      requires temp != data && temp.Length == PAGE_SIZE == data.Length && packedUpper <= PAGE_SIZE
      requires Packed(packed, packedUpper)
      requires slot.offset > 0 ==> slot.offset + slot.length <= PAGE_SIZE && slot.length < packedUpper
      requires content == if slot.offset == 0 then None else Some(data[slot.offset..slot.offset + slot.length])
      modifies temp
      ensures newUpper == packedUpper - Size(content)
      ensures Packed(newDir, newUpper) && |newDir| == |packed| + 1
      ensures Tuples(newDir, temp[..]) == old(Tuples(packed, temp[..])) + [content]
    {
      if slot.offset == 0 {
        newDir, newUpper := packed + [Slot(0, 0)], packedUpper;
        return;
      }
      ghost var before := temp[..];
      var tuple := data[slot.offset..slot.offset + slot.length];
      newUpper := packedUpper - slot.length;
      newDir := packed + [Slot(newUpper, slot.length)];
      WriteBytes(temp, newUpper, tuple);
      TuplesAfterInsert(packed, newDir, before, temp[..], |packed|, newUpper, tuple);
    }

    /** The next slot to pack: its tuple, and the room that those before it leave. */
    lemma NextToPack(i: nat)
      requires Valid() && i < |dir|
      ensures var slots, slot := View().slots, dir[i];
              && slots[..i + 1] == slots[..i] + [slots[i]] && Used(slots[..i + 1]) == Used(slots[..i]) + Size(slots[i])
              && slots[i] == (if slot.offset == 0 then None else Some(data[slot.offset..slot.offset + slot.length]))
              && (slot.offset > 0 ==>
                   slot.offset + slot.length <= PAGE_SIZE && slot.length < PAGE_SIZE - Used(slots[..i]))
    {
      UsedStep(View().slots, i);
    }

    /** One step of packing: the tuple of slot i, if it is live. */
    method PackNext(temp: array<byte>, packed: seq<Slot>, packedUpper: nat, i: nat)
      returns (newDir: seq<Slot>, newUpper: nat)
      requires Valid() && i < |dir| && temp != data && PackHolds(View().slots, i, packed, packedUpper, temp[..])
      modifies temp
      ensures PackHolds(View().slots, i + 1, newDir, newUpper, temp[..])
    {
      NextToPack(i);
      ghost var slots := View().slots;
      newDir, newUpper := PackSlot(temp, packed, packedUpper, dir[i], slots[i]);
      assert View().slots == slots;
    }

    /** Copies the live tuples tightly to the bottom of a fresh buffer. */
    method PackTuples() returns (temp: array<byte>, newDir: seq<Slot>, newUpper: nat)
      requires Valid()
      ensures fresh(temp) && temp.Length == PAGE_SIZE
      ensures |newDir| == |dir| && newUpper == PAGE_SIZE - Used(View().slots)
      ensures Packed(newDir, newUpper) && Tuples(newDir, temp[..]) == View().slots
    {
      temp := new byte[PAGE_SIZE](_ => 0);
      newDir, newUpper := [], PAGE_SIZE;
      ghost var slots := View().slots;
      for i := 0 to |dir|
        invariant PackHolds(slots, i, newDir, newUpper, temp[..])
      {
        newDir, newUpper := PackNext(temp, newDir, newUpper, i);
      }
      assert slots[..|dir|] == slots;
    }

    /** Defragments the page through a second buffer. */
    method Compact()
      requires Valid()
      modifies this, data
      ensures Valid() && View() == old(Compacted(View()))
    {
      var temp, newDir, newUpper := PackTuples();
      LiveBytesAre(newDir, temp[..]);
      CopyAll(temp, data);
      dir, upper := newDir, newUpper;
    }
  }

  /** The first i slots have been packed into the buffer. */
  ghost predicate PackHolds(slots: seq<Option<Bytes>>, i: nat, dir: seq<Slot>, upper: nat, temp: Bytes) {
    && i <= |slots| && |dir| == i && |temp| == PAGE_SIZE && upper == PAGE_SIZE - Used(slots[..i])
    && Packed(dir, upper) && Tuples(dir, temp) == slots[..i]
  }

  ghost predicate Packed(dir: seq<Slot>, upper: nat) {
    forall i :: 0 <= i < |dir| && dir[i].offset > 0 ==>
      upper <= dir[i].offset && dir[i].offset + dir[i].length <= PAGE_SIZE
  }

  lemma {:induction false} UsedStep(slots: seq<Option<Bytes>>, i: nat)
    requires i < |slots|
    ensures Used(slots[..i + 1]) == Used(slots[..i]) + Size(slots[i])
    ensures Used(slots[..i + 1]) <= Used(slots) && slots[..i + 1] == slots[..i] + [slots[i]]
    decreases |slots| - i
  {
    assert slots[..i + 1][..i] == slots[..i];
    if i + 1 < |slots| {
      UsedStep(slots, i + 1);
    } else {
      assert slots[..i + 1] == slots;
    }
  }

  lemma InsertRefines(dir: seq<Slot>, dir': seq<Slot>, data: Bytes, data': Bytes, upper: nat, i: nat, offset: nat,
                      tuple: Bytes)
    requires Packed(dir, upper) && |data| == PAGE_SIZE && LiveBytes(dir) <= PAGE_SIZE - upper
    requires HEADER_SIZE + SLOT_SIZE * |dir| <= upper <= PAGE_SIZE && offset + |tuple| == upper && 0 < offset
    requires i == FreeSlot(Tuples(dir, data)) && Fits(Page(Tuples(dir, data), upper), |tuple|)
    requires data' == data[..offset] + tuple + data[offset + |tuple|..]
    requires dir' == if i < |dir| then dir[i := Slot(offset, |tuple|)] else dir + [Slot(offset, |tuple|)]
    ensures Packed(dir', offset)
    ensures Page(Tuples(dir', data'), offset) == TupleInserted(Page(Tuples(dir, data), upper), tuple)
    ensures LiveBytes(dir') <= PAGE_SIZE - offset
  {
    LiveBytesAre(dir, data);
    PackedAfterInsert(dir, dir', upper, i, offset, |tuple|);
    TuplesAfterInsert(dir, dir', data, data', i, offset, tuple);
    TupleInsertedKeeps(Page(Tuples(dir, data), upper), tuple);
    LiveBytesAre(dir', data');
  }

  lemma PackedAfterInsert(dir: seq<Slot>, dir': seq<Slot>, upper: nat, i: nat, offset: nat, length: nat)
    requires Packed(dir, upper) && offset + length == upper <= PAGE_SIZE
    requires dir' == if i < |dir| then dir[i := Slot(offset, length)] else dir + [Slot(offset, length)]
    ensures Packed(dir', offset)
  {
  }

  lemma DeleteRefines(dir: seq<Slot>, data: Bytes, upper: nat, slot: nat)
    requires Packed(dir, upper) && |data| == PAGE_SIZE && LiveBytes(dir) <= PAGE_SIZE - upper && slot < |dir|
    requires HEADER_SIZE + SLOT_SIZE * |dir| <= upper <= PAGE_SIZE
    ensures Packed(dir[slot := Slot(0, 0)], upper) && LiveBytes(dir[slot := Slot(0, 0)]) <= PAGE_SIZE - upper
    ensures Tuples(dir[slot := Slot(0, 0)], data) == TupleDeleted(Page(Tuples(dir, data), upper), slot).slots
  {
    LiveBytesAre(dir, data);
    LiveBytesAre(dir[slot := Slot(0, 0)], data);
    TupleDeletedKeeps(Page(Tuples(dir, data), upper), slot);
    TombstoneTuples(dir, data, slot);
  }

  lemma TombstoneTuples(dir: seq<Slot>, data: Bytes, slot: nat)
    requires slot < |dir| && forall i :: 0 <= i < |dir| && dir[i].offset > 0 ==> dir[i].offset + dir[i].length <= |data|
    ensures Tuples(dir[slot := Slot(0, 0)], data) == Tuples(dir, data)[slot := None]
  {
  }

  function Tuples(dir: seq<Slot>, data: Bytes): (r: seq<Option<Bytes>>)
    requires forall i :: 0 <= i < |dir| && dir[i].offset > 0 ==> dir[i].offset + dir[i].length <= |data|
    ensures |r| == |dir|
  {
    seq(|dir|, i requires 0 <= i < |dir| =>
      if dir[i].offset == 0 then None else Some(data[dir[i].offset..dir[i].offset + dir[i].length]))
  }

  function LiveBytes(dir: seq<Slot>): nat {
    if dir == [] then 0
    else LiveBytes(dir[..|dir| - 1]) + (if dir[|dir| - 1].offset == 0 then 0 else dir[|dir| - 1].length)
  }

  lemma {:induction false} LiveBytesAre(dir: seq<Slot>, data: Bytes)
    requires forall i :: 0 <= i < |dir| && dir[i].offset > 0 ==> dir[i].offset + dir[i].length <= |data|
    ensures LiveBytes(dir) == Used(Tuples(dir, data))
    decreases |dir|
  {
    if dir != [] {
      var n := |dir| - 1;
      LiveBytesAre(dir[..n], data);
      assert Tuples(dir, data)[..n] == Tuples(dir[..n], data);
    }
  }

  lemma FreeSlotIs(slots: seq<Option<Bytes>>, i: nat)
    requires i <= |slots| && (i < |slots| ==> slots[i] == None) && forall j :: 0 <= j < i ==> slots[j].Some?
    ensures FreeSlot(slots) == i
  {
  }

  lemma TuplesAfterInsert(dir: seq<Slot>, dir': seq<Slot>, data: Bytes, data': Bytes, i: nat, offset: nat, tuple: Bytes)
    requires i <= |dir| && 0 < offset && offset + |tuple| <= |data|
    requires forall j :: 0 <= j < |dir| && dir[j].offset > 0 ==>
      offset + |tuple| <= dir[j].offset && dir[j].offset + dir[j].length <= |data|
    requires data' == data[..offset] + tuple + data[offset + |tuple|..]
    requires dir' == if i < |dir| then dir[i := Slot(offset, |tuple|)] else dir + [Slot(offset, |tuple|)]
    ensures forall j :: 0 <= j < |dir'| && dir'[j].offset > 0 ==> dir'[j].offset + dir'[j].length <= |data'|
    ensures Tuples(dir', data') ==
      if i < |dir| then Tuples(dir, data)[i := Some(tuple)] else Tuples(dir, data) + [Some(tuple)]
  {
    assert data'[offset..offset + |tuple|] == tuple;
    forall j | 0 <= j < |dir| && dir[j].offset > 0
      ensures data'[dir[j].offset..dir[j].offset + dir[j].length] == data[dir[j].offset..dir[j].offset + dir[j].length]
    {
    }
  }
}
