/** The buffer pool: a pinned, clock-swept page cache that its clients cannot tell from a flat store of pages. */
module BufferPools {
  import opened Types

  /** One frame: the page it holds, if any, its pins, and its dirty and reference bits. */
  datatype Frame = Frame(pageID: PageId, page: Option<Bytes>, pins: nat, dirty: bool, ref: bool)

  const EMPTY_FRAME := Frame(0, None, 0, false, false)

  type Disk = map<PageId, Bytes>

  /** A page the file does not reach reads as zeros. */
  function ZeroPage(): Bytes {
    seq(PAGE_SIZE, i => 0)
  }

  function OnDisk(disk: Disk, id: PageId): Bytes {
    if id in disk then disk[id] else ZeroPage()
  }

  /** The page a client sees under a number: the cached copy, or else the one on disk. */
  function Seen(frames: seq<Frame>, table: map<PageId, nat>, disk: Disk, id: PageId): Bytes {
    if id in table && table[id] < |frames| && frames[table[id]].page.Some? then frames[table[id]].page.value
    else OnDisk(disk, id)
  }

  /** How often a page is pinned; a page that is not cached is not pinned. */
  function PinsIn(frames: seq<Frame>, table: map<PageId, nat>, id: PageId): nat {
    if id in table && table[id] < |frames| then frames[table[id]].pins else 0
  }

  ghost predicate SamePins(frames: seq<Frame>, table: map<PageId, nat>, frames': seq<Frame>, table': map<PageId, nat>) {
    forall id :: PinsIn(frames', table', id) == PinsIn(frames, table, id)
  }

  ghost predicate SameView(frames: seq<Frame>, table: map<PageId, nat>, disk: Disk,
                           frames': seq<Frame>, table': map<PageId, nat>, disk': Disk) {
    forall id :: Seen(frames', table', disk', id) == Seen(frames, table, disk, id)
  }

  /** The table and the occupied frames are each other's inverse. */
  ghost predicate Bijection(frames: seq<Frame>, table: map<PageId, nat>) {
    && (forall id :: id in table ==> Holds(frames, table[id], id))
    && (forall i :: 0 <= i < |frames| && frames[i].page.Some? ==>
         frames[i].pageID in table && table[frames[i].pageID] == i)
  }

  ghost predicate Holds(frames: seq<Frame>, i: nat, id: PageId) {
    i < |frames| && frames[i].page.Some? && frames[i].pageID == id
  }

  /** A frame without unsaved changes agrees with the disk, and an empty one is not pinned. */
  ghost predicate FrameHolds(f: Frame, disk: Disk, owed: set<PageId>) {
    && (f.page.Some? && !f.dirty && f.pageID !in owed ==> f.page.value == OnDisk(disk, f.pageID))
    && (f.page.None? ==> f.pins == 0)
    && (f.page.Some? && f.pageID in owed ==> f.pins > 0)
  }

  /** owed are the pages a client has written to and not yet unpinned as dirty. */
  ghost predicate PoolHolds(frames: seq<Frame>, table: map<PageId, nat>, disk: Disk, owed: set<PageId>) {
    && Bijection(frames, table)
    && (forall i :: 0 <= i < |frames| ==> FrameHolds(frames[i], disk, owed))
    && owed <= table.Keys
  }

  /** A page someone has pinned stays cached, in the same frame. */
  ghost predicate KeepsPinned(frames: seq<Frame>, table: map<PageId, nat>, table': map<PageId, nat>) {
    forall p :: p in table && table[p] < |frames| && frames[table[p]].pins > 0 ==> p in table' && table'[p] == table[p]
  }

  predicate CanTake(f: Frame) {
    f.page.None? || f.pins == 0
  }

  // ---------- single steps ----------

  function Saved(disk: Disk, f: Frame): Disk {
    if f.page.Some? && f.dirty then disk[f.pageID := f.page.value] else disk
  }

  /** Writing a dirty frame back, without evicting it. */
  lemma SaveKeeps(frames: seq<Frame>, table: map<PageId, nat>, disk: Disk, owed: set<PageId>, i: nat)
    requires PoolHolds(frames, table, disk, owed) && i < |frames| && frames[i].page.Some?
    ensures var frames' := frames[i := frames[i].(dirty := false)];
            PoolHolds(frames', table, Saved(disk, frames[i]), owed)
            && SameView(frames, table, disk, frames', table, Saved(disk, frames[i]))
            && SamePins(frames, table, frames', table)
    ensures frames[i].pageID !in owed ==> OnDisk(Saved(disk, frames[i]), frames[i].pageID) == frames[i].page.value
  {
  }

  /** Evicting an unpinned frame: what it held that the disk did not is written first. */
  lemma EvictKeeps(frames: seq<Frame>, table: map<PageId, nat>, disk: Disk, owed: set<PageId>, i: nat)
    requires PoolHolds(frames, table, disk, owed) && i < |frames| && CanTake(frames[i]) && frames[i].page.Some?
    ensures var frames', table', disk' := frames[i := EMPTY_FRAME], table - {frames[i].pageID}, Saved(disk, frames[i]);
            PoolHolds(frames', table', disk', owed) && SameView(frames, table, disk, frames', table', disk')
            && SamePins(frames, table, frames', table') && KeepsPinned(frames, table, table')
  {
  }

  /** A page brought into an empty frame, pinned; whatever it says is what the disk says, or it is dirty. */
  lemma InstallKeeps(frames: seq<Frame>, table: map<PageId, nat>, disk: Disk, owed: set<PageId>, i: nat, f: Frame)
    requires PoolHolds(frames, table, disk, owed) && i < |frames| && frames[i].page.None? && f.pageID !in table
    requires f.page.Some? && (f.dirty || f.page.value == OnDisk(disk, f.pageID))
    ensures PoolHolds(frames[i := f], table[f.pageID := i], disk, owed)
    ensures forall id :: Seen(frames[i := f], table[f.pageID := i], disk, id)
                      == if id == f.pageID then f.page.value else Seen(frames, table, disk, id)
    ensures forall id ::
      PinsIn(frames[i := f], table[f.pageID := i], id) == if id == f.pageID then f.pins else PinsIn(frames, table, id)
  {
    var frames', table' := frames[i := f], table[f.pageID := i];
    forall k | 0 <= k < |frames'|
      ensures FrameHolds(frames'[k], disk, owed)
    {
      assert FrameHolds(frames[k], disk, owed);
    }
    assert Bijection(frames', table');
    forall id
      ensures Seen(frames', table', disk, id) == if id == f.pageID then f.page.value else Seen(frames, table, disk, id)
      ensures PinsIn(frames', table', id) == if id == f.pageID then f.pins else PinsIn(frames, table, id)
    {
      if id in table { assert Holds(frames, table[id], id); }
    }
  }

  /** One page is seen with new contents, and every other as before. */
  ghost predicate AddsPage(frames: seq<Frame>, table: map<PageId, nat>, frames': seq<Frame>, table': map<PageId, nat>,
                           disk: Disk, id: PageId, page: Bytes) {
    forall p :: Seen(frames', table', disk, p) == if p == id then page else Seen(frames, table, disk, p)
  }

  ghost predicate AddsPins(frames: seq<Frame>, table: map<PageId, nat>, frames': seq<Frame>, table': map<PageId, nat>,
                           id: PageId, n: nat) {
    forall p :: PinsIn(frames', table', p) == PinsIn(frames, table, p) + if p == id then n else 0
  }

  /** A page put into an empty frame whether or not it is cached already: sound exactly when it was not. */
  lemma InstallSound(frames: seq<Frame>, table: map<PageId, nat>, disk: Disk, owed: set<PageId>, i: nat, f: Frame)
    requires PoolHolds(frames, table, disk, owed) && i < |frames| && frames[i].page.None? && f.page.Some? && f.dirty
    requires f.pins > 0
    ensures PoolHolds(frames[i := f], table[f.pageID := i], disk, owed) <==> f.pageID !in table
    ensures f.pageID !in table ==>
      AddsPage(frames, table, frames[i := f], table[f.pageID := i], disk, f.pageID, f.page.value)
    ensures f.pageID !in table ==> AddsPins(frames, table, frames[i := f], table[f.pageID := i], f.pageID, f.pins)
  {
    var frames', table' := frames[i := f], table[f.pageID := i];
    if f.pageID in table {
      var j := table[f.pageID];
      assert Holds(frames, j, f.pageID) && j != i && frames'[j] == frames[j];
    } else {
      InstallKeeps(frames, table, disk, owed, i, f);
    }
  }

  /** A frame whose page stays where it is, with other pins, bits or bytes: what counts is the new frame alone. */
  lemma UpdateSound(frames: seq<Frame>, table: map<PageId, nat>, disk: Disk, owed: set<PageId>, owed': set<PageId>,
                    i: nat, f: Frame)
    requires PoolHolds(frames, table, disk, owed) && i < |frames| && frames[i].page.Some?
    requires f.page.Some? && f.pageID == frames[i].pageID
    requires forall id :: id != f.pageID ==> (id in owed' <==> id in owed)
    ensures PoolHolds(frames[i := f], table, disk, owed') <==> FrameHolds(f, disk, owed')
    ensures forall id :: Seen(frames[i := f], table, disk, id)
                      == if id == f.pageID then f.page.value else Seen(frames, table, disk, id)
    ensures PinsIn(frames, table, f.pageID) == frames[i].pins
    ensures forall id ::
      PinsIn(frames[i := f], table, id) == if id == f.pageID then f.pins else PinsIn(frames, table, id)
  {
    var frames' := frames[i := f];
    assert frames'[i] == f;
    forall k | 0 <= k < |frames'| && k != i
      ensures FrameHolds(frames'[k], disk, owed')
    {
      assert FrameHolds(frames[k], disk, owed);
      if frames[k].page.Some? {
        assert frames[k].pageID != f.pageID;
      }
    }
    forall id | id in owed'
      ensures id in table
    {
      assert id == f.pageID || id in owed;
    }
    forall id | id in table
      ensures Holds(frames', table[id], id)
    {
      assert Holds(frames, table[id], id);
    }
    forall id
      ensures Seen(frames', table, disk, id) == if id == f.pageID then f.page.value else Seen(frames, table, disk, id)
      ensures PinsIn(frames', table, id) == if id == f.pageID then f.pins else PinsIn(frames, table, id)
    {
      if id in table { assert Holds(frames, table[id], id); }
    }
  }

  /** Evicting a frame that is not marked dirty drops what it holds, whether or not the disk has it. */
  lemma EvictDrops(frames: seq<Frame>, table: map<PageId, nat>, disk: Disk, i: nat)
    requires Bijection(frames, table) && i < |frames| && frames[i].page.Some? && !frames[i].dirty
    ensures var id := frames[i].pageID;
      && Seen(frames, table, disk, id) == frames[i].page.value
      && Seen(frames[i := EMPTY_FRAME], table - {id}, Saved(disk, frames[i]), id) == OnDisk(disk, id)
  {
  }

  // ---------- the clock ----------

  /** Only reference bits differ. */
  ghost predicate SameButRefs(frames: seq<Frame>, frames': seq<Frame>) {
    |frames'| == |frames| && forall i :: 0 <= i < |frames| ==> frames'[i].(ref := frames[i].ref) == frames[i]
  }

  lemma RefsKeep(frames: seq<Frame>, frames': seq<Frame>, table: map<PageId, nat>, disk: Disk, owed: set<PageId>)
    requires PoolHolds(frames, table, disk, owed) && SameButRefs(frames, frames')
    ensures PoolHolds(frames', table, disk, owed) && SameView(frames, table, disk, frames', table, disk)
    ensures SamePins(frames, table, frames', table)
  {
    forall id
      ensures Seen(frames', table, disk, id) == Seen(frames, table, disk, id)
      ensures PinsIn(frames', table, id) == PinsIn(frames, table, id)
    {
      if id in table { assert Holds(frames, table[id], id); }
    }
  }

  /** The frame under the hand j steps after it left frame h. */
  function HandAt(h: nat, j: nat, n: nat): (i: nat)
    requires h < n && j <= 2 * n
    ensures i < n
  {
    if h + j < n then h + j else if h + j < 2 * n then h + j - n else h + j - 2 * n
  }

  /** Whether the sweep takes this frame on its j-th step: a reference bit saves it in the first round only. */
  predicate TakenAt(f: Frame, j: nat, n: nat) {
    f.page.None? || (f.pins == 0 && (!f.ref || j >= n))
  }

  /** The frame a sweep takes from its j-th step on, as the frames stand before it begins. */
  function ClockChoice(frames: seq<Frame>, h: nat, j: nat): (victim: Option<nat>)
    requires j <= 2 * |frames| && (frames != [] ==> h < |frames|)
    ensures victim.Some? ==> victim.value < |frames| && CanTake(frames[victim.value])
    decreases 2 * |frames| - j
  {
    if j == 2 * |frames| then None
    else
      var i := HandAt(h, j, |frames|);
      if TakenAt(frames[i], j, |frames|) then Some(i) else ClockChoice(frames, h, j + 1)
  }

  /** The first round passes this frame over. */
  ghost predicate Waits(f: Frame) {
    f.page.Some? && (f.pins > 0 || f.ref)
  }

  /** The frame a sweep takes that begins at h: the first that is empty or unpinned without a reference bit, and if
      there is none the first that is unpinned. */
  ghost predicate IsChoice(frames: seq<Frame>, h: nat, v: nat)
    requires h < |frames| && v < |frames|
  {
    && CanTake(frames[v])
    && (forall i :: 0 <= i < |frames| && Distance(h, i, |frames|) < Distance(h, v, |frames|) ==> Waits(frames[i]))
    && (Waits(frames[v]) ==>
         && (forall i :: 0 <= i < |frames| ==> Waits(frames[i]))
         && (forall i :: 0 <= i < |frames| && Distance(h, i, |frames|) < Distance(h, v, |frames|) ==>
              frames[i].pins > 0))
  }

  /** What the sweep leaves behind: every unpinned frame it has passed has used up its second chance. */
  ghost predicate Spent(frames: seq<Frame>, frames': seq<Frame>, h: nat, v: nat)
    requires h < |frames| == |frames'| && v < |frames|
  {
    forall i :: 0 <= i < |frames| ==>
      frames'[i] ==
        if frames[i].pins == 0 && (Waits(frames[v]) || Distance(h, i, |frames|) < Distance(h, v, |frames|))
        then frames[i].(ref := false) else frames[i]
  }

  /** After k steps without a victim: frames not yet passed are as they were, frames passed once have no reference bit
      unless pinned, and frames passed twice are pinned. */
  ghost predicate Swept(start: seq<Frame>, frames: seq<Frame>, h0: nat, k: nat)
    requires h0 < |frames| == |start|
  {
    forall i :: 0 <= i < |frames| ==> SweptAt(start[i], frames[i], Distance(h0, i, |frames|), k, |frames|)
  }

  ghost predicate SweptAt(was: Frame, f: Frame, d: int, k: nat, n: nat) {
    && f == (if d < k && was.pins == 0 then was.(ref := false) else was)
    && (d < k ==> Waits(was))
    && (d < k - n ==> was.pins > 0)
  }

  /** The sweep after k steps from h0: it has taken no frame yet, and the hand is on the next one to look at. */
  ghost predicate Sweeping(start: seq<Frame>, frames: seq<Frame>, h0: nat, hand: nat, k: nat) {
    && SameButRefs(start, frames) && k <= 2 * |start|
    && (start != [] ==> h0 < |start| && hand < |start| && Swept(start, frames, h0, k))
    && (start != [] ==> hand == HandAt(h0, k, |start|))
    && ClockChoice(start, h0, 0) == ClockChoice(start, h0, k)
  }

  class BufferPool {
    const poolSize: nat
    const frames: array<Frame>
    var pageTable: map<PageId, nat>
    var clockHand: nat
    var disk: Disk
    var numPages: nat
    ghost var owed: set<PageId>

    ghost predicate Valid()
      reads this, frames
    {
      && frames.Length == poolSize
      && (poolSize > 0 ==> clockHand < poolSize)
      && PoolHolds(frames[..], pageTable, disk, owed)
    }

    /** The page a client sees under a number. */
    ghost function View(id: PageId): Bytes
      reads this, frames
    {
      Seen(frames[..], pageTable, disk, id)
    }

    ghost function PinsOf(id: PageId): nat
      reads this, frames
    {
      PinsIn(frames[..], pageTable, id)
    }

    /** No page is cached that the file does not reach. */
    ghost predicate InFile()
      reads this
    {
      forall id :: id in pageTable ==> 0 <= id < numPages
    }

    /** The frame a search for a victim takes. */
    ghost function Choice(): Option<nat>
      requires Valid()
      reads this, frames
    {
      ClockChoice(frames[..], clockHand, 0)
    }

    constructor (poolSize: nat, disk: Disk, numPages: nat)
      ensures Valid() && fresh(frames) && this.poolSize == poolSize && this.disk == disk && this.numPages == numPages
      ensures pageTable == map[] && owed == {} && (forall i :: 0 <= i < poolSize ==> frames[i] == EMPTY_FRAME)
      ensures forall id :: View(id) == OnDisk(disk, id) && PinsOf(id) == 0
    {
      this.poolSize, this.disk, this.numPages := poolSize, disk, numPages;
      frames := new Frame[poolSize](_ => EMPTY_FRAME);
      pageTable, clockHand, owed := map[], 0, {};
    }

    /** The clock sweep, as it turns the hand and clears reference bits. */
    method Sweep() returns (victim: Option<nat>)
      requires frames.Length == poolSize && (poolSize > 0 ==> clockHand < poolSize)
      modifies `clockHand, frames
      ensures poolSize > 0 ==> clockHand < poolSize
      ensures SameButRefs(old(frames[..]), frames[..]) && victim == ClockChoice(old(frames[..]), old(clockHand), 0)
      ensures victim.None? ==> forall i :: 0 <= i < poolSize ==> !CanTake(old(frames[i]))
      ensures victim.None? ==> frames[..] == old(frames[..]) && (poolSize > 0 ==> clockHand == old(clockHand))
      ensures victim.Some? ==> victim.value < poolSize && IsChoice(old(frames[..]), old(clockHand), victim.value)
      ensures victim.Some? ==> Spent(old(frames[..]), frames[..], old(clockHand), victim.value)
      ensures victim.Some? ==> clockHand == if victim.value + 1 == poolSize then 0 else victim.value + 1
    {
      ghost var h0, start := clockHand, frames[..];
      var step := 0;
      while step < 2 * poolSize
        invariant step <= 2 * poolSize && Sweeping(start, frames[..], h0, clockHand, step)
      {
        var idx := clockHand;
        clockHand := if clockHand + 1 == poolSize then 0 else clockHand + 1;
        ghost var before := frames[..];
        var f := frames[idx];
        if f.page.None? {
          SweepEnds(start, before, h0, idx, step);
          return Some(idx);
        }
        if f.pins == 0 {
          if f.ref {
            frames[idx] := f.(ref := false);
          } else {
            SweepEnds(start, before, h0, idx, step);
            return Some(idx);
          }
        }
        SweepStep(start, before, frames[..], h0, idx, step);
        step := step + 1;
      }
      NoneLeft(start, frames[..], h0, clockHand);
      return None;
    }

    /** In at most two rounds the sweep finds a frame to take, if there is one, and never a pinned one. */
    method FindVictim() returns (victim: Option<nat>)
      requires Valid()
      modifies `clockHand, frames
      ensures Valid() && SameButRefs(old(frames[..]), frames[..]) && victim == old(Choice())
      ensures victim.Some? <==> exists i :: 0 <= i < poolSize && CanTake(old(frames[i]))
      ensures victim.Some? ==> victim.value < poolSize && CanTake(frames[victim.value])
      ensures victim.Some? ==> IsChoice(old(frames[..]), old(clockHand), victim.value)
      ensures victim.Some? ==> Spent(old(frames[..]), frames[..], old(clockHand), victim.value)
      ensures victim.Some? ==> clockHand == if victim.value + 1 == poolSize then 0 else victim.value + 1
      ensures victim.None? ==> frames[..] == old(frames[..])
      ensures forall id :: View(id) == old(View(id)) && PinsOf(id) == old(PinsOf(id))
    {
      victim := Sweep();
      RefsKeep(old(frames[..]), frames[..], pageTable, disk, owed);
    }

    /** Clears a frame that can be taken, writing its page to disk first if it is dirty. */
    method EvictFrame(idx: nat)
      requires Valid() && idx < poolSize && CanTake(frames[idx])
      modifies `pageTable, `disk, frames
      ensures Valid() && frames[idx].page.None?
      ensures forall id :: View(id) == old(View(id)) && PinsOf(id) == old(PinsOf(id))
      ensures pageTable.Keys == old(pageTable.Keys) -
          if old(frames[idx].page.Some?) then {old(frames[idx].pageID)} else {}
      ensures KeepsPinned(old(frames[..]), old(pageTable), pageTable)
    {
      var f := frames[idx];
      if f.page.None? {
        return;
      }
      EvictKeeps(frames[..], pageTable, disk, owed, idx);
      assert frames[..][idx] == f;
      if f.dirty {
        disk := disk[f.pageID := f.page.value];
      }
      pageTable := pageTable - {f.pageID};
      frames[idx] := EMPTY_FRAME;
      assert frames[..] == old(frames[..])[idx := EMPTY_FRAME];
    }

    /** Puts a page into an empty frame, pinned. */
    method Install(idx: nat, f: Frame)
      requires Valid() && idx < poolSize && frames[idx].page.None? && f.pageID !in pageTable
      requires f.page.Some? && (f.dirty || f.page.value == OnDisk(disk, f.pageID))
      modifies `pageTable, frames
      ensures Valid() && pageTable == old(pageTable)[f.pageID := idx] && frames[idx] == f
      ensures forall id :: View(id) == if id == f.pageID then f.page.value else old(View(id))
      ensures forall id :: PinsOf(id) == if id == f.pageID then f.pins else old(PinsOf(id))
    {
      InstallKeeps(frames[..], pageTable, disk, owed, idx, f);
      frames[idx] := f;
      pageTable := pageTable[f.pageID := idx];
      assert frames[..] == old(frames[..])[idx := f];
    }

    /** Replaces a cached frame's pins, bits or bytes. */
    method Update(idx: nat, f: Frame, ghost newOwed: set<PageId>)
      requires Valid() && idx < poolSize && frames[idx].page.Some?
      requires f.page.Some? && f.pageID == frames[idx].pageID
      requires forall id :: id != f.pageID ==> (id in newOwed <==> id in owed)
      modifies frames, `owed
      ensures Valid() <==> FrameHolds(f, disk, newOwed)
      ensures owed == newOwed && frames[idx] == f
      ensures forall id :: View(id) == if id == f.pageID then f.page.value else old(View(id))
      ensures old(PinsOf(f.pageID)) == old(frames[idx].pins)
      ensures forall id :: PinsOf(id) == if id == f.pageID then f.pins else old(PinsOf(id))
    {
      UpdateSound(frames[..], pageTable, disk, owed, newOwed, idx, f);
      frames[idx] := f;
      owed := newOwed;
      assert frames[..] == old(frames[..])[idx := f];
    }

    /** The frame a cached page is in. */
    lemma Cached(id: PageId)
      requires Valid() && id in pageTable
      ensures pageTable[id] < poolSize && frames[pageTable[id]].page.Some? && frames[pageTable[id]].pageID == id
      ensures FrameHolds(frames[pageTable[id]], disk, owed) && View(id) == frames[pageTable[id]].page.value
      ensures PinsOf(id) == frames[pageTable[id]].pins
    {
    }

    /** The page, pinned; it fails only when it is not cached and every frame is pinned. */
    method FetchPage(id: PageId) returns (page: Option<Bytes>)
      requires Valid()
      modifies this, frames
      ensures Valid() && owed == old(owed) && numPages == old(numPages)
      ensures forall p :: View(p) == old(View(p))
      ensures KeepsPinned(old(frames[..]), old(pageTable), pageTable)
      ensures page.Some? ==> page.value == View(id) && id in pageTable
      ensures page.Some? ==> pageTable[id] < poolSize && frames[pageTable[id]].ref
      ensures forall p :: PinsOf(p) == old(PinsOf(p)) + if page.Some? && p == id then 1 else 0
      ensures pageTable.Keys <= old(pageTable.Keys) + {id}
      ensures page.None? <==> id !in old(pageTable) && forall i :: 0 <= i < poolSize ==> !CanTake(old(frames[i]))
    {
      if id in pageTable {
        var idx := pageTable[id];
        Cached(id);
        var f := frames[idx];
        Update(idx, f.(pins := f.pins + 1, ref := true), owed);
        return f.page;
      }
      page := LoadPage(id);
    }

    method LoadPage(id: PageId) returns (page: Option<Bytes>)
      requires Valid() && id !in pageTable
      modifies this, frames
      ensures Valid() && owed == old(owed) && numPages == old(numPages)
      ensures forall p :: View(p) == old(View(p))
      ensures KeepsPinned(old(frames[..]), old(pageTable), pageTable)
      ensures page.Some? ==> page.value == View(id) && id in pageTable
      ensures page.Some? ==> pageTable[id] < poolSize && frames[pageTable[id]].ref
      ensures forall p :: PinsOf(p) == old(PinsOf(p)) + if page.Some? && p == id then 1 else 0
      ensures pageTable.Keys <= old(pageTable.Keys) + {id}
      ensures page.None? <==> forall i :: 0 <= i < poolSize ==> !CanTake(old(frames[i]))
    {
      var victim := FindVictim();
      if victim.None? {
        return None;
      }
      EvictFrame(victim.value);
      var data := OnDisk(disk, id);
      Install(victim.value, Frame(id, Some(data), 1, false, true));
      return Some(data);
    }

    /** A new page at the end of the file, pinned and dirty; no other page changes. Somebody may have fetched that page
        before the file reached it. The pool stays sound if and only if it is no longer cached, or cached in the very
        frame the clock takes; otherwise two frames hold it. */
    method NewPage(blank: Bytes) returns (id: Option<PageId>)
      requires Valid()
      modifies this, frames
      ensures id.None? <==> forall i :: 0 <= i < poolSize ==> !CanTake(old(frames[i]))
      ensures id.None? ==> Valid() && numPages == old(numPages) && pageTable == old(pageTable)
      ensures id.None? ==> forall p :: View(p) == old(View(p)) && PinsOf(p) == old(PinsOf(p))
      ensures id.Some? ==> id.value == old(numPages) && numPages == old(numPages) + 1
      ensures id.Some? ==>
        id.value in pageTable && View(id.value) == blank && pageTable.Keys <= old(pageTable.Keys) + {id.value}
      ensures Valid() <==> id.None? || old(numPages !in pageTable || Choice() == Some(pageTable[numPages]))
      ensures id.Some? && old(PinsOf(numPages)) > 0 ==> !Valid()
      ensures id.Some? && Valid() ==> forall p :: View(p) == if p == id.value then blank else old(View(p))
      ensures id.Some? && Valid() ==> forall p :: PinsOf(p) == old(PinsOf(p)) + if p == id.value then 1 else 0
      ensures owed == old(owed)
      ensures Valid() ==> KeepsPinned(old(frames[..]), old(pageTable), pageTable)
      ensures old(InFile()) ==> Valid() && InFile()
    {
      var victim := FindVictim();
      if victim.None? {
        return None;
      }
      EvictFrame(victim.value);
      var newID := numPages;
      numPages := numPages + 1;
      InstallNew(victim.value, Frame(newID, Some(blank), 1, true, true));
      return Some(newID);
    }

    /** Puts a dirty page into an empty frame, whether or not it is cached already. */
    method InstallNew(idx: nat, f: Frame)
      requires Valid() && idx < poolSize && frames[idx].page.None? && f.page.Some? && f.dirty && f.pins > 0
      modifies `pageTable, frames
      ensures pageTable == old(pageTable)[f.pageID := idx] && View(f.pageID) == f.page.value
      ensures Valid() <==> f.pageID !in old(pageTable)
      ensures Valid() ==> forall p :: View(p) == if p == f.pageID then f.page.value else old(View(p))
      ensures Valid() ==> forall p :: PinsOf(p) == old(PinsOf(p)) + if p == f.pageID then f.pins else 0
    {
      InstallSound(frames[..], pageTable, disk, owed, idx, f);
      frames[idx] := f;
      pageTable := pageTable[f.pageID := idx];
      assert frames[..] == old(frames[..])[idx := f];
    }

    /** A client that has the page pinned writes to it. */
    method WriteTo(id: PageId, page: Bytes)
      requires Valid() && PinsOf(id) > 0
      modifies frames, `owed
      ensures Valid() && owed == old(owed) + {id}
      ensures forall p :: View(p) == if p == id then page else old(View(p))
      ensures forall p :: PinsOf(p) == old(PinsOf(p))
    {
      var idx := pageTable[id];
      Cached(id);
      Update(idx, frames[idx].(page := Some(page)), owed + {id});
    }

    /** Giving up a pin without saying that the page is dirty would leave no trace of a write to it: it is the last pin,
        no one has said so before, and the disk does not have the page. */
    ghost predicate ForgetsWrite(id: PageId)
      requires Valid()
      reads this, frames
    {
      id in owed && PinsOf(id) == 1 && !frames[pageTable[id]].dirty && View(id) != OnDisk(disk, id)
    }

    /** Gives up one pin. The pool stays sound unless a write is forgotten that way. */
    method UnpinPage(id: PageId, isDirty: bool) returns (ok: bool)
      requires Valid()
      modifies frames, `owed
      ensures ok <==> old(PinsOf(id)) > 0
      ensures Valid() <==> isDirty || !old(ForgetsWrite(id))
      ensures forall p :: PinsOf(p) == old(PinsOf(p)) - if ok && p == id then 1 else 0
      ensures owed == if ok && (isDirty || old(PinsOf(id)) == 1) then old(owed) - {id} else old(owed)
      ensures forall p :: View(p) == old(View(p))
    {
      if id !in pageTable {
        return false;
      }
      var idx := pageTable[id];
      Cached(id);
      var f := frames[idx];
      if f.pins == 0 {
        return false;
      }
      Update(idx, f.(pins := f.pins - 1, dirty := f.dirty || isDirty),
             if isDirty || f.pins == 1 then owed - {id} else owed);
      return true;
    }

    /** Writes one cached frame to disk if it is dirty. */
    method FlushFrame(idx: nat)
      requires Valid() && idx < poolSize
      modifies `disk, frames
      ensures Valid() && forall p :: View(p) == old(View(p)) && PinsOf(p) == old(PinsOf(p))
      ensures forall i :: 0 <= i < poolSize ==>
        frames[i].page == old(frames[i].page) && frames[i].pageID == old(frames[i].pageID)
      ensures !frames[idx].dirty || frames[idx].page.None?
      ensures forall i :: 0 <= i < poolSize && !old(frames[i].dirty) ==> !frames[i].dirty
    {
      var f := frames[idx];
      if f.page.None? || !f.dirty {
        return;
      }
      SaveKeeps(frames[..], pageTable, disk, owed, idx);
      disk := disk[f.pageID := f.page.value];
      frames[idx] := f.(dirty := false);
      assert frames[..] == old(frames[..])[idx := f.(dirty := false)];
    }

    method FlushPage(id: PageId) returns (ok: bool)
      requires Valid()
      modifies `disk, frames
      ensures Valid() && forall p :: View(p) == old(View(p)) && PinsOf(p) == old(PinsOf(p))
      ensures ok <==> id in pageTable
      ensures ok && id !in owed ==> OnDisk(disk, id) == View(id)
    {
      if id !in pageTable {
        return false;
      }
      Cached(id);
      FlushFrame(pageTable[id]);
      Cached(id);
      return true;
    }

    /** Afterwards the disk holds every page as clients see it, but for pages still being written. */
    method FlushAll()
      requires Valid()
      modifies `disk, frames
      ensures Valid() && forall p :: View(p) == old(View(p)) && PinsOf(p) == old(PinsOf(p))
      ensures forall p :: p !in owed ==> OnDisk(disk, p) == View(p)
    {
      for i := 0 to poolSize
        invariant Valid() && forall p :: View(p) == old(View(p)) && PinsOf(p) == old(PinsOf(p))
        invariant forall k :: 0 <= k < i ==> !frames[k].dirty || frames[k].page.None?
      {
        FlushFrame(i);
      }
      forall p | p !in owed
        ensures OnDisk(disk, p) == View(p)
      {
        if p in pageTable {
          Cached(p);
        }
      }
    }
  }

  /** The frame under the hand is taken exactly when the sweep chose it from the start. */
  lemma SweepEnds(start: seq<Frame>, frames: seq<Frame>, h0: nat, i: nat, k: nat)
    requires Sweeping(start, frames, h0, i, k) && k < 2 * |frames|
    requires frames[i].page.None? || (frames[i].pins == 0 && !frames[i].ref)
    ensures ClockChoice(start, h0, 0) == Some(i) && IsChoice(start, h0, i) && Spent(start, frames, h0, i)
  {
    assert SweptAt(start[i], frames[i], Distance(h0, i, |frames|), k, |frames|);
    assert TakenAt(start[i], k, |frames|);
    forall j | 0 <= j < |frames|
      ensures SweptAt(start[j], frames[j], Distance(h0, j, |frames|), k, |frames|)
    {
    }
  }

  /** The frame under the hand was occupied, and pinned or just given its second chance. */
  lemma SweepStep(start: seq<Frame>, before: seq<Frame>, after: seq<Frame>, h0: nat, i: nat, k: nat)
    requires Sweeping(start, before, h0, i, k) && k < 2 * |before|
    requires before[i].page.Some? && (before[i].pins > 0 || before[i].ref)
    requires after == before[i := if before[i].pins > 0 then before[i] else before[i].(ref := false)]
    ensures Sweeping(start, after, h0, if i + 1 == |after| then 0 else i + 1, k + 1)
  {
    assert SweptAt(start[i], before[i], Distance(h0, i, |before|), k, |before|);
    assert !TakenAt(start[i], k, |before|);
    forall j | 0 <= j < |after|
      ensures SweptAt(start[j], after[j], Distance(h0, j, |after|), k + 1, |after|)
    {
      assert SweptAt(start[j], before[j], Distance(h0, j, |before|), k, |before|);
    }
  }

  lemma NoneLeft(start: seq<Frame>, frames: seq<Frame>, h0: nat, hand: nat)
    requires Sweeping(start, frames, h0, hand, 2 * |frames|)
    ensures ClockChoice(start, h0, 0) == None && frames == start && (start != [] ==> hand == h0)
    ensures forall i :: 0 <= i < |start| ==> !CanTake(start[i])
  {
    forall i | 0 <= i < |start|
      ensures !CanTake(start[i]) && frames[i] == start[i]
    {
      assert SweptAt(start[i], frames[i], Distance(h0, i, |frames|), 2 * |frames|, |frames|);
    }
  }
}
