/** The data pages as one address space of tuples, and the table of pages with room to spare. */
module FreeSpaces {
  import opened Types
  import opened SlottedPages
  import opened LargeValues

  /** Marks a page whose tuples were tombstoned since it was last measured. */
  const UNKNOWN_FREE := -1
  /** Pages with less free space are not worth revisiting. */
  const MIN_TRACKED_FREE := 64

  type FreeTable = map<PageId, int>

  ghost predicate PagesHold(pages: Pages, numPages: nat) {
    forall id :: id in pages ==> 0 < id < numPages && pages[id].Valid()
  }

  /** The free bytes of a page once it is compacted. */
  function Room(p: Page): int {
    PAGE_SIZE - p.Lower() - Used(p.slots)
  }

  /** A known entry is exact, and every page worth revisiting is in the table, the skipped ones apart and those whose
      space was lost track of when the engine was started again. */
  ghost predicate Tracks(reclaim: FreeTable, pages: Pages, skip: set<PageId>, lost: set<PageId>) {
    && (forall id :: id in reclaim ==>
         id in pages && id !in skip && (reclaim[id] == UNKNOWN_FREE || reclaim[id] == Room(pages[id])))
    && (forall id :: id in pages ==> id in reclaim || id in skip || id in lost || Room(pages[id]) < MIN_TRACKED_FREE)
  }

  ghost predicate SameCells(pages: Pages, pages': Pages) {
    forall r :: Cell(pages', r) == Cell(pages, r)
  }

  /** The added tuples appear at addresses that held nothing, and nothing else changes. */
  ghost predicate Adds(pages: Pages, pages': Pages, added: seq<RID>) {
    && (forall r :: r !in added ==> Cell(pages', r) == Cell(pages, r))
    && (forall r :: r in added ==> Cell(pages, r).None? && Cell(pages', r).Some?)
  }

  ghost predicate Frees(pages: Pages, pages': Pages, gone: seq<RID>) {
    forall r :: Cell(pages', r) == if r in gone then None else Cell(pages, r)
  }

  // ---------- single steps on one page ----------

  function WithTuple(pages: Pages, id: PageId, t: Bytes): Pages
    requires id in pages && Fits(pages[id], |t|) && |t| <= pages[id].upper
  {
    pages[id := TupleInserted(pages[id], t)]
  }

  function TupleAddress(pages: Pages, id: PageId): RID
    requires id in pages
  {
    RID(id, FreeSlot(pages[id].slots))
  }

  lemma InsertStep(pages: Pages, numPages: nat, id: PageId, t: Bytes)
    requires PagesHold(pages, numPages) && id in pages && Fits(pages[id], |t|) && numPages <= TWO_TO_64
    ensures PagesHold(WithTuple(pages, id, t), numPages)
    ensures Adds(pages, WithTuple(pages, id, t), [TupleAddress(pages, id)])
    ensures Cell(WithTuple(pages, id, t), TupleAddress(pages, id)) == Some(t)
    ensures Addressable(TupleAddress(pages, id))
  {
    TupleInsertedKeeps(pages[id], t);
    SlotsAreFew(TupleInserted(pages[id], t));
    InsertedCells(pages[id].slots, pages, WithTuple(pages, id, t), id, t);
  }

  lemma InsertedCells(slots: seq<Option<Bytes>>, pages: Pages, pages': Pages, id: PageId, t: Bytes)
    requires id in pages && id in pages' && pages' == pages[id := pages'[id]] && slots == pages[id].slots
    requires pages'[id].slots ==
      if FreeSlot(slots) < |slots| then slots[FreeSlot(slots) := Some(t)] else slots + [Some(t)]
    ensures Cell(pages', RID(id, FreeSlot(slots))) == Some(t) && Cell(pages, RID(id, FreeSlot(slots))) == None
    ensures forall r :: r != RID(id, FreeSlot(slots)) ==> Cell(pages', r) == Cell(pages, r)
  {
  }

  lemma DeleteStep(pages: Pages, numPages: nat, r: RID)
    requires PagesHold(pages, numPages) && r.pageID in pages
    ensures PagesHold(pages[r.pageID := TupleDeleted(pages[r.pageID], r.slotID)], numPages)
    ensures Frees(pages, pages[r.pageID := TupleDeleted(pages[r.pageID], r.slotID)], [r])
  {
    TupleDeletedKeeps(pages[r.pageID], r.slotID);
  }

  function WithCompacted(pages: Pages, id: PageId): Pages
    requires id in pages && Used(pages[id].slots) <= PAGE_SIZE
  {
    pages[id := Compacted(pages[id])]
  }

  lemma CompactStep(pages: Pages, numPages: nat, id: PageId)
    requires PagesHold(pages, numPages) && id in pages
    ensures PagesHold(WithCompacted(pages, id), numPages) && SameCells(pages, WithCompacted(pages, id))
    ensures SameRooms(pages, WithCompacted(pages, id))
    ensures WithCompacted(pages, id)[id].FreeSpace() == Room(pages[id])
  {
  }

  ghost predicate SameRooms(pages: Pages, pages': Pages) {
    pages'.Keys == pages.Keys && forall id :: id in pages ==> Room(pages'[id]) == Room(pages[id])
  }

  lemma TracksSameRooms(reclaim: FreeTable, pages: Pages, pages': Pages, skip: set<PageId>, lost: set<PageId>)
    requires Tracks(reclaim, pages, skip, lost) && SameRooms(pages, pages')
    ensures Tracks(reclaim, pages', skip, lost)
  {
  }

  // ---------- compositions ----------

  lemma AddsThenAdds(p0: Pages, p1: Pages, p2: Pages, a: seq<RID>, b: seq<RID>)
    requires Adds(p0, p1, a) && Adds(p1, p2, b)
    ensures Adds(p0, p2, b + a)
  {
  }

  lemma AddsThenFrees(p0: Pages, p1: Pages, p2: Pages, a: seq<RID>)
    requires Adds(p0, p1, a) && Frees(p1, p2, a)
    ensures SameCells(p0, p2)
  {
  }

  // ---------- the search for a page with room ----------

  /** No tracked page among these has need bytes to give. */
  ghost predicate NoneFits(pages: Pages, reclaim: FreeTable, ids: set<PageId>, need: nat) {
    forall id :: id in ids && id in reclaim && id in pages ==> Room(pages[id]) < need
  }

  /** The ids still to visit are as they were, and the ids visited have no room for need bytes. */
  ghost predicate SearchHolds(pages0: Pages, reclaim0: FreeTable, pages: Pages, reclaim: FreeTable, todo: set<PageId>,
                              need: nat) {
    && todo <= reclaim.Keys
    && (forall id :: id in todo ==> id in reclaim0 && reclaim[id] == reclaim0[id])
    && SameCells(pages0, pages) && SameRooms(pages0, pages)
    && NoneFits(pages0, reclaim0, reclaim0.Keys - todo, need)
  }

  /** One page of the search: compacted and measured, it leaves the table or stays with an exact entry. */
  lemma MeasureStep(pages0: Pages, reclaim0: FreeTable, pages: Pages, reclaim: FreeTable, todo: set<PageId>, need: nat,
                    numPages: nat, skip: set<PageId>, lost: set<PageId>, id: PageId)
    requires PagesHold(pages, numPages) && Tracks(reclaim, pages, skip, lost)
    requires SearchHolds(pages0, reclaim0, pages, reclaim, todo, need) && id in todo
    ensures PagesHold(WithCompacted(pages, id), numPages) && SameCells(pages0, WithCompacted(pages, id))
    ensures SameRooms(pages0, WithCompacted(pages, id)) && WithCompacted(pages, id)[id].FreeSpace() == Room(pages0[id])
    ensures Tracks(reclaim, WithCompacted(pages, id), skip, lost)
    ensures Room(pages0[id]) < need ==> NoneFits(pages0, reclaim0, reclaim0.Keys - (todo - {id}), need)
  {
    CompactStep(pages, numPages, id);
    TracksSameRooms(reclaim, pages, WithCompacted(pages, id), skip, lost);
  }

  /** A page of the table with room for need bytes, compacted and taken off the table, if there is one. */
  method SearchReclaim(pages0: Pages, reclaim0: FreeTable, active: PageId, numPages: nat, need: nat,
                       ghost lost: set<PageId>)
    returns (pages: Pages, reclaim: FreeTable, found: Option<PageId>)
    requires PagesHold(pages0, numPages) && Tracks(reclaim0, pages0, {active}, lost) && active in pages0
    ensures PagesHold(pages, numPages) && SameCells(pages0, pages) && SameRooms(pages0, pages)
    ensures found.None? ==> Tracks(reclaim, pages, {active}, lost) && NoneFits(pages0, reclaim0, reclaim0.Keys, need)
    ensures found.Some? ==>
      found.value in pages && found.value != active && Tracks(reclaim, pages, {active, found.value}, lost)
    ensures found.Some? ==> need <= pages[found.value].FreeSpace()
  {
    pages, reclaim := pages0, reclaim0;
    var todo: set<PageId> := reclaim0.Keys;
    while todo != {}
      invariant PagesHold(pages, numPages) && Tracks(reclaim, pages, {active}, lost)
      invariant SearchHolds(pages0, reclaim0, pages, reclaim, todo, need)
      decreases |todo|
    {
      var id := AnyOf(todo);
      var free := reclaim[id];
      if free != UNKNOWN_FREE && free < need {
        todo := todo - {id};
        continue;
      }
      MeasureStep(pages0, reclaim0, pages, reclaim, todo, need, numPages, {active}, lost, id);
      pages := WithCompacted(pages, id);
      var got := pages[id].FreeSpace();
      if got >= need {
        return pages, reclaim - {id}, Some(id);
      }
      todo := todo - {id};
      reclaim := if got < MIN_TRACKED_FREE then reclaim - {id} else reclaim[id := got];
    }
    return pages, reclaim, None;
  }
}
