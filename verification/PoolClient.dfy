/** What clients of the buffer pool see over any sequence of calls: a flat store of pages with pin counts. */
module PoolClients {
  import opened Types
  import opened BufferPools

  /** The store without a cache. owed are the pages written to and not yet unpinned as dirty. */
  datatype Flat = Flat(pages: Disk, pins: multiset<PageId>, owed: set<PageId>, numPages: nat)

  datatype Call =
    | Fetch(id: PageId)
    | New(blank: Bytes)
    | Write(id: PageId, page: Bytes)
    | Unpin(id: PageId, dirty: bool)
    | Flush(id: PageId)
    | FlushEverything

  datatype Reply =
    | Page(page: Bytes)
    | Fresh(id: PageId)
    | Done
    | Refused

  function Pinned(flat: Flat): set<PageId> {
    set id | id in flat.pins
  }

  /** As many pages are pinned as the pool can hold. */
  predicate Full(flat: Flat, poolSize: nat) {
    |Pinned(flat)| == poolSize
  }

  /** What a client may do: ask for pages of the file, write to pages it has pinned, and not give up the last pin on a
      page it wrote to without saying that it is dirty. */
  predicate Allowed(flat: Flat, call: Call) {
    match call
    case Fetch(id) => 0 <= id < flat.numPages
    case Write(id, _) => id in flat.pins
    case Unpin(id, dirty) => id in flat.owed && !dirty ==> flat.pins[id] > 1
    case _ => true
  }

  /** The answer of the flat store. It depends on what is pinned, but not on what is cached. */
  function Answer(flat: Flat, poolSize: nat, call: Call): Reply {
    match call
    case Fetch(id) => if id !in flat.pins && Full(flat, poolSize) then Refused else Page(OnDisk(flat.pages, id))
    case New(_) => if Full(flat, poolSize) then Refused else Fresh(flat.numPages)
    case Unpin(id, _) => if id in flat.pins then Done else Refused
    case _ => Done
  }

  function After(flat: Flat, poolSize: nat, call: Call): Flat {
    if Answer(flat, poolSize, call) == Refused then flat
    else
      match call
      case Fetch(id) => flat.(pins := flat.pins + multiset{id})
      case New(blank) =>
        flat.(pages := flat.pages[flat.numPages := blank], pins := flat.pins + multiset{flat.numPages},
              numPages := flat.numPages + 1)
      case Write(id, page) => flat.(pages := flat.pages[id := page], owed := flat.owed + {id})
      case Unpin(id, dirty) =>
        flat.(pins := flat.pins - multiset{id}, owed := if dirty then flat.owed - {id} else flat.owed)
      case _ => flat
  }

  function AfterAll(flat: Flat, poolSize: nat, calls: seq<Call>): Flat
    decreases |calls|
  {
    if calls == [] then flat else AfterAll(After(flat, poolSize, calls[0]), poolSize, calls[1..])
  }

  predicate AllAllowed(flat: Flat, poolSize: nat, calls: seq<Call>)
    decreases |calls|
  {
    calls == [] || (Allowed(flat, calls[0]) && AllAllowed(After(flat, poolSize, calls[0]), poolSize, calls[1..]))
  }

  // ---------- when every frame is pinned ----------

  function PinnedIn(frames: seq<Frame>): set<PageId> {
    if frames == [] then {}
    else PinnedIn(frames[..|frames| - 1]) + if frames[|frames| - 1].pins > 0 then {frames[|frames| - 1].pageID} else {}
  }

  lemma {:induction false} PinnedInHas(frames: seq<Frame>, id: PageId)
    ensures id in PinnedIn(frames) <==> exists i :: 0 <= i < |frames| && frames[i].pins > 0 && frames[i].pageID == id
  {
    if frames != [] {
      var rest := frames[..|frames| - 1];
      PinnedInHas(rest, id);
      if id in PinnedIn(rest) {
        var i :| 0 <= i < |rest| && rest[i].pins > 0 && rest[i].pageID == id;
        assert frames[i] == rest[i];
      }
      if i :| 0 <= i < |frames| && frames[i].pins > 0 && frames[i].pageID == id {
        assert i < |rest| ==> rest[i] == frames[i];
      }
    }
  }

  ghost predicate DistinctPinned(frames: seq<Frame>) {
    forall i, j :: 0 <= i < j < |frames| && frames[i].pins > 0 && frames[j].pins > 0 ==>
      frames[i].pageID != frames[j].pageID
  }

  lemma {:induction false} PinnedCount(frames: seq<Frame>)
    requires DistinctPinned(frames)
    ensures |PinnedIn(frames)| <= |frames|
    ensures |PinnedIn(frames)| == |frames| <==> forall i :: 0 <= i < |frames| ==> frames[i].pins > 0
  {
    if frames != [] {
      var rest, last := frames[..|frames| - 1], frames[|frames| - 1];
      assert forall i :: 0 <= i < |rest| ==> rest[i] == frames[i];
      PinnedCount(rest);
      if last.pins > 0 {
        PinnedInHas(rest, last.pageID);
        assert last.pageID !in PinnedIn(rest);
        if forall i :: 0 <= i < |rest| ==> rest[i].pins > 0 {
          assert forall i :: 0 <= i < |frames| ==> frames[i].pins > 0 by {
            assert forall i :: 0 <= i < |frames| ==> frames[i] == if i < |rest| then rest[i] else last;
          }
        }
      }
    }
  }

  /** The pool is exhausted exactly when the flat store says so. */
  lemma FullWhenExhausted(frames: seq<Frame>, table: map<PageId, nat>, disk: Disk, owed: set<PageId>, flat: Flat)
    requires PoolHolds(frames, table, disk, owed) && SamePinCounts(frames, table, flat)
    ensures Full(flat, |frames|) <==> forall i :: 0 <= i < |frames| ==> !CanTake(frames[i])
  {
    forall i | 0 <= i < |frames|
      ensures !CanTake(frames[i]) <==> frames[i].pins > 0
    {
      assert FrameHolds(frames[i], disk, owed);
    }
    forall i, j | 0 <= i < j < |frames| && frames[i].pins > 0 && frames[j].pins > 0
      ensures frames[i].pageID != frames[j].pageID
    {
      assert FrameHolds(frames[i], disk, owed) && FrameHolds(frames[j], disk, owed);
    }
    PinnedCount(frames);
    forall id
      ensures id in Pinned(flat) <==> id in PinnedIn(frames)
    {
      PinnedInHas(frames, id);
      assert PinsIn(frames, table, id) == flat.pins[id];
      if i :| 0 <= i < |frames| && frames[i].pins > 0 && frames[i].pageID == id {
        assert FrameHolds(frames[i], disk, owed);
      }
    }
    assert Pinned(flat) == PinnedIn(frames);
  }

  ghost predicate SamePinCounts(frames: seq<Frame>, table: map<PageId, nat>, flat: Flat) {
    forall id :: PinsIn(frames, table, id) == flat.pins[id]
  }

  // ---------- the pool behind the calls ----------

  ghost predicate Shows(pool: BufferPool, flat: Flat)
    reads pool, pool.frames
  {
    && pool.Valid() && pool.InFile()
    && pool.numPages == flat.numPages && pool.owed == flat.owed
    && (forall id :: pool.View(id) == OnDisk(flat.pages, id))
    && (forall id :: pool.PinsOf(id) == flat.pins[id])
  }

  /** A flush of a page that nobody has pinned may find it evicted; it is the one answer that shows what is cached. */
  predicate Agrees(flat: Flat, poolSize: nat, call: Call, reply: Reply) {
    reply == Answer(flat, poolSize, call) || (call.Flush? && call.id !in flat.pins && reply == Refused)
  }

  lemma Exhausted(pool: BufferPool, flat: Flat)
    requires Shows(pool, flat)
    ensures Full(flat, pool.poolSize) <==> forall i :: 0 <= i < pool.poolSize ==> !CanTake(pool.frames[i])
  {
    forall id
      ensures PinsIn(pool.frames[..], pool.pageTable, id) == flat.pins[id]
    {
      assert pool.PinsOf(id) == flat.pins[id];
    }
    FullWhenExhausted(pool.frames[..], pool.pageTable, pool.disk, pool.owed, flat);
  }

  method ServeFetch(pool: BufferPool, id: PageId, ghost flat: Flat) returns (reply: Reply)
    requires Shows(pool, flat) && Allowed(flat, Fetch(id))
    modifies pool, pool.frames
    ensures Shows(pool, After(flat, pool.poolSize, Fetch(id))) && reply == Answer(flat, pool.poolSize, Fetch(id))
  {
    Exhausted(pool, flat);
    assert id in flat.pins ==> id in pool.pageTable by { assert pool.PinsOf(id) == flat.pins[id]; }
    var page := pool.FetchPage(id);
    reply := if page.Some? then Page(page.value) else Refused;
  }

  method ServeNew(pool: BufferPool, blank: Bytes, ghost flat: Flat) returns (reply: Reply)
    requires Shows(pool, flat)
    modifies pool, pool.frames
    ensures Shows(pool, After(flat, pool.poolSize, New(blank))) && reply == Answer(flat, pool.poolSize, New(blank))
  {
    Exhausted(pool, flat);
    var id := pool.NewPage(blank);
    reply := if id.Some? then Fresh(id.value) else Refused;
  }

  method ServeWrite(pool: BufferPool, id: PageId, page: Bytes, ghost flat: Flat)
    requires Shows(pool, flat) && id in flat.pins
    modifies pool, pool.frames
    ensures Shows(pool, After(flat, pool.poolSize, Write(id, page)))
  {
    assert pool.PinsOf(id) == flat.pins[id];
    pool.WriteTo(id, page);
  }

  method ServeUnpin(pool: BufferPool, id: PageId, dirty: bool, ghost flat: Flat) returns (reply: Reply)
    requires Shows(pool, flat) && Allowed(flat, Unpin(id, dirty))
    modifies pool, pool.frames
    ensures Shows(pool, After(flat, pool.poolSize, Unpin(id, dirty)))
    ensures reply == Answer(flat, pool.poolSize, Unpin(id, dirty))
  {
    assert pool.PinsOf(id) == flat.pins[id];
    var ok := pool.UnpinPage(id, dirty);
    reply := if ok then Done else Refused;
  }

  method ServeFlush(pool: BufferPool, id: PageId, ghost flat: Flat) returns (reply: Reply)
    requires Shows(pool, flat)
    modifies pool, pool.frames
    ensures Shows(pool, flat) && (reply == Done || (reply == Refused && id !in flat.pins))
  {
    assert pool.PinsOf(id) == flat.pins[id];
    var ok := pool.FlushPage(id);
    reply := if ok then Done else Refused;
  }

  /** One call of a client. */
  method Serve(pool: BufferPool, call: Call, ghost flat: Flat) returns (reply: Reply)
    requires Shows(pool, flat) && Allowed(flat, call)
    modifies pool, pool.frames
    ensures Shows(pool, After(flat, pool.poolSize, call)) && Agrees(flat, pool.poolSize, call, reply)
  {
    match call {
      case Fetch(id) =>
        reply := ServeFetch(pool, id, flat);
      case New(blank) =>
        reply := ServeNew(pool, blank, flat);
      case Write(id, page) =>
        ServeWrite(pool, id, page, flat);
        reply := Done;
      case Unpin(id, dirty) =>
        reply := ServeUnpin(pool, id, dirty, flat);
      case Flush(id) =>
        reply := ServeFlush(pool, id, flat);
      case FlushEverything =>
        pool.FlushAll();
        reply := Done;
    }
  }

  /** Every sequence of calls that clients may make is answered as by the flat store, and leaves the pages of the flat
      store; a pinned page is never lost on the way, since its pins are counted. */
  method ServeAll(pool: BufferPool, calls: seq<Call>, ghost flat: Flat) returns (replies: seq<Reply>)
    requires Shows(pool, flat) && AllAllowed(flat, pool.poolSize, calls)
    modifies pool, pool.frames
    ensures Shows(pool, AfterAll(flat, pool.poolSize, calls)) && |replies| == |calls|
    ensures AllAgree(flat, pool.poolSize, calls, replies)
    decreases |calls|
  {
    if calls == [] {
      return [];
    }
    var first := Serve(pool, calls[0], flat);
    var rest := ServeAll(pool, calls[1..], After(flat, pool.poolSize, calls[0]));
    replies := [first] + rest;
    assert replies[1..] == rest;
  }

  predicate AllAgree(flat: Flat, poolSize: nat, calls: seq<Call>, replies: seq<Reply>)
    decreases |calls|
  {
    |replies| == |calls|
    && (calls != [] ==>
          Agrees(flat, poolSize, calls[0], replies[0])
          && AllAgree(After(flat, poolSize, calls[0]), poolSize, calls[1..], replies[1..]))
  }

  /** From a new pool over a file, and ending with everything unpinned and flushed: the file then holds the flat store.
      */
  method Session(disk: Disk, numPages: nat, poolSize: nat, calls: seq<Call>) returns (replies: seq<Reply>, file: Disk)
    requires AllAllowed(Flat(disk, multiset{}, {}, numPages), poolSize, calls)
    ensures AllAgree(Flat(disk, multiset{}, {}, numPages), poolSize, calls, replies)
    ensures var flat := AfterAll(Flat(disk, multiset{}, {}, numPages), poolSize, calls);
            forall id :: id !in flat.owed ==> OnDisk(file, id) == OnDisk(flat.pages, id)
  {
    ghost var flat := Flat(disk, multiset{}, {}, numPages);
    var pool := new BufferPool(poolSize, disk, numPages);
    replies := ServeAll(pool, calls, flat);
    pool.FlushAll();
    file := pool.disk;
  }

  /** A page fetched, and still pinned, before the file reaches it: the next new page gets a second frame. */
  method FetchBeyondEnd(blank: Bytes) returns (pool: BufferPool)
    ensures fresh(pool) && pool.numPages == 2 && !pool.Valid()
  {
    pool := new BufferPool(2, map[], 1);
    assert CanTake(pool.frames[0]);
    var page := pool.FetchPage(1);
    assert pool.PinsOf(1) == 1;
    assert forall i :: 0 <= i < 2 && pool.frames[..][i].page.Some? ==> i == pool.pageTable[1];
    assert CanTake(pool.frames[0]) || CanTake(pool.frames[1]);
    var id := pool.NewPage(blank);
  }
}
