/** Values by key, inline or chained, in slotted pages whose dead space is reused. */
module RecordStores {
  import opened Types
  import opened Crc32
  import opened SlottedPages
  import opened LargeValues
  import opened FreeSpaces
  import TreeInvariant
  import TreeFill
  import BPlusTrees

  /** Every key's value can be read back, footprints do not overlap, and every live tuple belongs to one. */
  ghost predicate RecordsHold(pages: Pages, index: map<Key, RID>, feet: map<Key, seq<RID>>, values: map<Key, Bytes>) {
    && index.Keys == feet.Keys == values.Keys
    && AllStored(pages, index, feet, values)
    && Disjoint(feet)
    && NoLeak(pages, feet)
  }

  ghost predicate AllStored(pages: Pages, index: map<Key, RID>, feet: map<Key, seq<RID>>, values: map<Key, Bytes>) {
    forall k :: k in values ==> KeyStored(pages, index, feet, values, k)
  }

  ghost predicate KeyStored(pages: Pages, index: map<Key, RID>, feet: map<Key, seq<RID>>, values: map<Key, Bytes>,
                            k: Key) {
    k in index && k in feet && k in values && StoredAt(pages, index[k], feet[k], values[k])
  }

  ghost predicate Disjoint(feet: map<Key, seq<RID>>) {
    forall k, l, r :: k in feet && l in feet && r in feet[k] && r in feet[l] ==> k == l
  }

  ghost predicate NoLeak(pages: Pages, feet: map<Key, seq<RID>>) {
    forall r :: Cell(pages, r).Some? ==> exists k :: k in feet && r in feet[k]
  }

  lemma FootIsLive(pages: Pages, index: map<Key, RID>, feet: map<Key, seq<RID>>, values: map<Key, Bytes>, k: Key,
                   r: RID)
    requires RecordsHold(pages, index, feet, values) && k in feet && r in feet[k]
    ensures Cell(pages, r).Some?
  {
    var j :| 0 <= j < |feet[k]| && feet[k][j] == r;
    assert KeyStored(pages, index, feet, values, k);
    StoredIsLive(pages, index[k], feet[k], values[k], j);
  }

  // ---------- reading ----------

  lemma LinkStep(p1: Pages, p2: Pages, r: RID, chain: seq<RID>, part: Bytes, parts: seq<Bytes>)
    requires Addressable(r) && (chain != [] ==> Addressable(chain[0]))
    requires Linked(Reader(p1), chain, parts) && Adds(p1, p2, [r]) && ChunkIn(p2, r, Head(chain), part)
    ensures Linked(Reader(p2), [r] + chain, [part] + parts)
  {
    ChunkRoundTrip(Head(chain), part);
    var longer := [r] + chain;
    assert longer[1..] == chain;
    forall j | 0 <= j < |longer|
      ensures Reader(p2)(longer[j]) == Some(Chunk(Head(longer[j + 1..]), ([part] + parts)[j]))
    {
      if j > 0 {
        assert Reader(p1)(chain[j - 1]).Some? && longer[j + 1..] == chain[j..];
      }
    }
  }

  ghost predicate ChunkIn(pages: Pages, r: RID, next: RID, part: Bytes) {
    next.pageID >= 0 && Cell(pages, r) == Some(ChunkBytes(next, part))
  }

  function Prefixed(v: Visits, rest: Option<Visits>): Option<Visits> {
    match rest
    case None => None
    case Some(w) => Some(Visits(v.rids + w.rids, v.payloads + w.payloads))
  }

  lemma PrefixedStep(v: Visits, r: RID, payload: Bytes, rest: Option<Visits>)
    ensures Prefixed(v, Preceded(r, payload, rest)) == Prefixed(Visits(v.rids + [r], v.payloads + [payload]), rest)
  {
    if rest.Some? {
      assert v.rids + ([r] + rest.value.rids) == v.rids + [r] + rest.value.rids;
      assert v.payloads + ([payload] + rest.value.payloads) == v.payloads + [payload] + rest.value.payloads;
    }
  }

  lemma PrefixedEnds(v: Visits, rest: Option<Visits>)
    ensures Prefixed(Visits([], []), rest) == rest && Prefixed(v, Some(Visits([], []))) == Some(v)
  {
    if rest.Some? {
      assert [] + rest.value.rids == rest.value.rids && [] + rest.value.payloads == rest.value.payloads;
    }
    assert v.rids + [] == v.rids && v.payloads + [] == v.payloads;
  }

  /** Visits each chunk in order and checks that the chain ends where the manifest says. */
  method WalkChain(pages: Pages, m: Manifest) returns (visits: Option<Visits>)
    ensures visits == Walk(Reader(pages), m.first, m.chunks)
  {
    var next, v, i := m.first, Visits([], []), 0;
    PrefixedEnds(v, Walk(Reader(pages), m.first, m.chunks));
    while i < m.chunks
      invariant i <= m.chunks
      invariant Walk(Reader(pages), m.first, m.chunks) == Prefixed(v, Walk(Reader(pages), next, m.chunks - i))
    {
      var c := ReadChunk(pages, next);
      if c.None? {
        return None;
      }
      PrefixedStep(v, next, c.value.payload, Walk(Reader(pages), c.value.next, m.chunks - i - 1));
      v := Visits(v.rids + [next], v.payloads + [c.value.payload]);
      next, i := c.value.next, i + 1;
    }
    PrefixedEnds(v, None);
    return if next.pageID != META_PAGE then None else Some(v);
  }

  method Assemble(payloads: seq<Bytes>) returns (value: Bytes)
    ensures value == Joined(payloads)
  {
    value := [];
    for i := 0 to |payloads|
      invariant value + Joined(payloads[i..]) == Joined(payloads)
    {
      JoinedStep(value, payloads, i);
      value := value + payloads[i];
    }
    assert payloads[|payloads|..] == [];
  }

  lemma JoinedStep(done: Bytes, payloads: seq<Bytes>, i: nat)
    requires i < |payloads|
    ensures done + Joined(payloads[i..]) == done + payloads[i] + Joined(payloads[i + 1..])
  {
  }

  /** The length and the checksum of the payloads, taken one chunk at a time. */
  method Measure(payloads: seq<Bytes>) returns (size: nat, crc: Word)
    ensures size == |Joined(payloads)| && crc == Checksum(Joined(payloads))
  {
    size, crc := 0, 0;
    ghost var seen: Bytes := [];
    CrcUpdateConcat(0, [], []);
    for i := 0 to |payloads|
      invariant seen + Joined(payloads[i..]) == Joined(payloads) && size == |seen| && crc == CrcUpdate(0, seen)
    {
      JoinedStep(seen, payloads, i);
      CrcUpdateConcat(0, seen, payloads[i]);
      size, crc := size + |payloads[i]|, CrcUpdate(crc, payloads[i]);
      seen := seen + payloads[i];
    }
    assert payloads[|payloads|..] == [] && seen + [] == seen;
  }

  method ReadValue(pages: Pages, rid: RID) returns (value: Option<Bytes>)
    ensures value == (match Load(pages, rid) case None => None case Some(l) => Some(l.value))
  {
    if !IsLarge(rid) {
      return Cell(pages, rid);
    }
    var m := ManifestIn(pages, rid);
    if m.None? {
      return None;
    }
    var visits := WalkChain(pages, m.value);
    if visits.None? {
      return None;
    }
    var joined := Assemble(visits.value.payloads);
    if |joined| != m.value.length || Checksum(joined) != m.value.crc {
      return None;
    }
    return Some(joined);
  }

  /** The tuples to free for rid: a chain that fails any check, its length and checksum included, is left in place. */
  method TuplesToFree(pages: Pages, rid: RID) returns (tuples: seq<RID>)
    ensures tuples == if Load(pages, rid).Some? then Load(pages, rid).value.tuples else if IsLarge(rid) then []
      else [rid]
  {
    if !IsLarge(rid) {
      return [rid];
    }
    var m := ManifestIn(pages, rid);
    if m.None? {
      return [];
    }
    var visits := WalkChain(pages, m.value);
    if visits.None? {
      return [];
    }
    var size, crc := Measure(visits.value.payloads);
    if size != m.value.length || crc != m.value.crc {
      return [];
    }
    return visits.value.rids + [ManifestOf(rid)];
  }

  // ---------- conditions and batches ----------

  datatype Condition = Unconditional | Absent | Present | ValueEquals(value: Bytes)

  /** Does the current value of a key meet the condition? */
  predicate Meets(current: Option<Bytes>, c: Condition) {
    match c
    case Unconditional => true
    case Absent => current.None?
    case Present => current.Some?
    case ValueEquals(v) => current == Some(v)
  }

  predicate AllMet(values: map<Key, Bytes>, conds: seq<(uint64, Condition)>) {
    forall i :: 0 <= i < |conds| ==> Meets(ValueOf(values, conds[i].0), conds[i].1)
  }

  /** What the conditions of a batch say about the map. */
  lemma AllMetIs(values: map<Key, Bytes>, conds: seq<(uint64, Condition)>)
    ensures AllMet(values, conds) <==>
      && (forall i :: 0 <= i < |conds| && conds[i].1 == Absent ==> conds[i].0 as Key !in values)
      && (forall i :: 0 <= i < |conds| && conds[i].1 == Present ==> conds[i].0 as Key in values)
      && (forall i :: 0 <= i < |conds| && conds[i].1.ValueEquals? ==>
           conds[i].0 as Key in values && values[conds[i].0] == conds[i].1.value)
  {
  }

  lemma MetSoFar(values: map<Key, Bytes>, conds: seq<(uint64, Condition)>, i: nat)
    requires i < |conds| && AllMet(values, conds[..i])
    ensures AllMet(values, conds[..i + 1]) <==> Meets(ValueOf(values, conds[i].0), conds[i].1)
    ensures !Meets(ValueOf(values, conds[i].0), conds[i].1) ==> !AllMet(values, conds)
  {
    assert conds[..i + 1] == conds[..i] + [conds[i]];
  }

  datatype Op = Put(key: Key, value: Bytes) | Delete(key: Key)

  function ValueOf(values: map<Key, Bytes>, k: Key): Option<Bytes> {
    if k in values then Some(values[k]) else None
  }

  function Applied(values: map<Key, Bytes>, op: Op): map<Key, Bytes> {
    match op
    case Put(k, v) => values[k := v]
    case Delete(k) => values - {k}
  }

  /** The operations one after the other. */
  function AllApplied(values: map<Key, Bytes>, ops: seq<Op>): map<Key, Bytes> {
    if ops == [] then values else Applied(AllApplied(values, ops[..|ops| - 1]), ops[|ops| - 1])
  }

  /** What became of a put: done; no room for the value, and nothing changed; or no room for the pages of the tree,
      which halts the engine half way. */
  datatype PutOutcome = Stored | NoRoom | TreeHalted

  /** What became of a batch. After TreeBroken the pages of the tree are no tree any more. */
  datatype Outcome = Done | ConditionFailed | Halted | TreeBroken

  /** Data pages are only ever added where the file has grown. */
  ghost predicate Grows(before: Pages, from: nat, after: Pages, numPages: nat) {
    from <= numPages && forall id :: id in after ==> id in before || from <= id
  }

  /** A key and a value of the sizes a client may store. */
  predicate Storable(op: Op) {
    0 <= op.key < TWO_TO_64 && (op.Put? ==> |op.value| <= MAX_VALUE_SIZE)
  }

  predicate AllStorable(ops: seq<Op>) {
    forall i :: 0 <= i < |ops| ==> Storable(ops[i])
  }

  // ---------- the allocator and the records ----------

  ghost predicate SpaceHolds(pages: Pages, numPages: nat, limit: nat, active: PageId, reclaim: FreeTable,
                             lost: set<PageId>) {
    && PagesHold(pages, numPages) && numPages <= limit <= TWO_TO_64
    && active in pages && Tracks(reclaim, pages, {active}, lost)
  }

  /** A tuple of this size fits neither the active page nor any tracked page, even compacted. */
  ghost predicate OutOfRoom(pages: Pages, active: PageId, reclaim: FreeTable, size: nat) {
    && active in pages && Room(pages[active]) < size + SLOT_SIZE
    && NoneFits(pages, reclaim, reclaim.Keys, size + SLOT_SIZE)
  }

  /** Every page whose space is known has less room than a tuple of this size needs, or than is worth tracking. */
  ghost predicate NoPageFits(pages: Pages, lost: set<PageId>, size: nat) {
    forall id :: id in pages ==> id in lost || Room(pages[id]) < Max(size + SLOT_SIZE, MIN_TRACKED_FREE)
  }

  lemma OutOfRoomIsFull(pages: Pages, active: PageId, reclaim: FreeTable, lost: set<PageId>, size: nat, bound: nat)
    requires Tracks(reclaim, pages, {active}, lost) && OutOfRoom(pages, active, reclaim, size) && size <= bound
    ensures NoPageFits(pages, lost, bound)
  {
  }

  /** A value that is stored as one tuple fits no page; one in pieces fits none with some of its pieces stored. */
  ghost predicate HasNoRoom(pages: Pages, lost: set<PageId>, value: Bytes) {
    if |value| <= MAX_RECORD_SIZE then NoPageFits(pages, lost, |value|)
    else SomePieceFitsNowhere(pages, lost, |Parts(value)|)
  }

  ghost predicate SomePieceFitsNowhere(pages: Pages, lost: set<PageId>, n: nat) {
    exists pages', chain :: |chain| <= n && PieceFitsNowhere(pages, pages', chain, lost)
  }

  ghost predicate PieceFitsNowhere(pages: Pages, pages': Pages, chain: seq<RID>, lost: set<PageId>) {
    Adds(pages, pages', chain) && NoPageFits(pages', lost, MAX_RECORD_SIZE)
  }

  lemma NewPageStep(pages: Pages, numPages: nat, reclaim: FreeTable, skip: set<PageId>, lost: set<PageId>)
    requires PagesHold(pages, numPages) && numPages > 0 && Tracks(reclaim, pages, skip, lost)
    ensures PagesHold(pages[numPages := EMPTY_PAGE], numPages + 1) && SameCells(pages, pages[numPages := EMPTY_PAGE])
    ensures Tracks(reclaim, pages[numPages := EMPTY_PAGE], skip + {numPages}, lost)
  {
  }

  /** The new active page is off the table; the old one joins it if that is worth while. */
  lemma SwitchStep(pages: Pages, reclaim: FreeTable, before: PageId, after: PageId, free: int,
                   lost: set<PageId>)
    requires Tracks(reclaim, pages, {before, after}, lost) && before in pages && before != after
    requires free == Room(pages[before])
    ensures Tracks(if free >= MIN_TRACKED_FREE then reclaim[before := free] else reclaim, pages, {after}, lost)
  {
  }

  lemma TracksUpdate(reclaim: FreeTable, pages: Pages, id: PageId, p: Page, lost: set<PageId>)
    requires Tracks(reclaim, pages, {id}, lost) && id in pages
    ensures Tracks(reclaim, pages[id := p], {id}, lost)
  {
  }

  lemma FreesThenFree(p0: Pages, p1: Pages, p2: Pages, a: seq<RID>, r: RID)
    requires Frees(p0, p1, a) && Frees(p1, p2, [r])
    ensures Frees(p0, p2, a + [r])
  {
  }

  /** The tuples of a value about to be replaced. */
  function FootOf(feet: map<Key, seq<RID>>, key: Key): seq<RID> {
    if key in feet then feet[key] else []
  }

  lemma FootIsOld(pages: Pages, index: map<Key, RID>, feet: map<Key, seq<RID>>, values: map<Key, Bytes>,
                  pages': Pages, foot: seq<RID>, k: Key)
    requires RecordsHold(pages, index, feet, values) && Adds(pages, pages', foot) && k in feet
    ensures forall r :: r in feet[k] ==> r !in foot && Cell(pages', r) == Cell(pages, r)
  {
    forall r | r in feet[k]
      ensures r !in foot && Cell(pages', r) == Cell(pages, r)
    {
      FootIsLive(pages, index, feet, values, k, r);
    }
  }

  /** No address of the new footprint belongs to another. */
  ghost predicate Apart(foot: seq<RID>, feet: map<Key, seq<RID>>) {
    forall k, r :: k in feet && r in feet[k] ==> r !in foot
  }

  lemma DisjointAfterPut(feet: map<Key, seq<RID>>, key: Key, foot: seq<RID>)
    requires Disjoint(feet) && Apart(foot, feet)
    ensures Disjoint(feet[key := foot])
  {
  }

  lemma OthersAfterPut(p0: Pages, p1: Pages, p2: Pages, index: map<Key, RID>, feet: map<Key, seq<RID>>,
                       values: map<Key, Bytes>,
                       key: Key, foot: seq<RID>, k: Key)
    requires RecordsHold(p0, index, feet, values) && Adds(p0, p1, foot) && Frees(p1, p2, FootOf(feet, key))
    requires k in feet && k != key
    ensures StoredAt(p2, index[k], feet[k], values[k])
  {
    assert KeyStored(p0, index, feet, values, k);
    FootIsOld(p0, index, feet, values, p1, foot, k);
    forall j | 0 <= j < |feet[k]|
      ensures Cell(p2, feet[k][j]) == Cell(p0, feet[k][j])
    {
      var r := feet[k][j];
      assert r in feet[k];
      assert r !in FootOf(feet, key);
    }
    StoredFrame(p0, p2, index[k], feet[k], values[k]);
  }

  lemma NewAfterPut(p1: Pages, p2: Pages, feet: map<Key, seq<RID>>, key: Key, rid: RID, foot: seq<RID>, value: Bytes)
    requires StoredAt(p1, rid, foot, value) && Apart(foot, feet) && Frees(p1, p2, FootOf(feet, key))
    ensures StoredAt(p2, rid, foot, value)
  {
    forall j | 0 <= j < |foot|
      ensures Cell(p2, foot[j]) == Cell(p1, foot[j])
    {
      assert foot[j] in foot;
    }
    StoredFrame(p1, p2, rid, foot, value);
  }

  lemma StoredAfterPut(p0: Pages, p1: Pages, p2: Pages, index: map<Key, RID>, feet: map<Key, seq<RID>>,
                       values: map<Key, Bytes>,
                       key: Key, rid: RID, foot: seq<RID>, value: Bytes)
    requires RecordsHold(p0, index, feet, values) && Adds(p0, p1, foot) && Frees(p1, p2, FootOf(feet, key))
    requires StoredAt(p2, rid, foot, value)
    ensures AllStored(p2, index[key := rid], feet[key := foot], values[key := value])
  {
    var index', feet', values' := index[key := rid], feet[key := foot], values[key := value];
    forall k | k in values'
      ensures KeyStored(p2, index', feet', values', k)
    {
      if k != key {
        OthersAfterPut(p0, p1, p2, index, feet, values, key, foot, k);
      }
    }
  }

  lemma ApartAfterAdds(p0: Pages, p1: Pages, index: map<Key, RID>, feet: map<Key, seq<RID>>, values: map<Key, Bytes>,
                       foot: seq<RID>)
    requires RecordsHold(p0, index, feet, values) && Adds(p0, p1, foot)
    ensures Apart(foot, feet)
  {
    forall k | k in feet
      ensures forall r :: r in feet[k] ==> r !in foot
    {
      FootIsOld(p0, index, feet, values, p1, foot, k);
    }
  }

  /** Writing the new value beside the old one and then freeing the old one is a map update. */
  lemma PutKeeps(p0: Pages, p1: Pages, p2: Pages, index: map<Key, RID>, feet: map<Key, seq<RID>>, values: map<Key,
                 Bytes>,
                 key: Key, rid: RID, foot: seq<RID>, value: Bytes)
    requires RecordsHold(p0, index, feet, values) && Adds(p0, p1, foot) && StoredAt(p1, rid, foot, value)
    requires Frees(p1, p2, FootOf(feet, key))
    ensures RecordsHold(p2, index[key := rid], feet[key := foot], values[key := value])
  {
    ApartAfterAdds(p0, p1, index, feet, values, foot);
    DisjointAfterPut(feet, key, foot);
    NewAfterPut(p1, p2, feet, key, rid, foot, value);
    StoredAfterPut(p0, p1, p2, index, feet, values, key, rid, foot, value);
    NoLeakAfterPut(p0, p1, p2, feet, key, foot);
  }

  lemma NoLeakAfterPut(p0: Pages, p1: Pages, p2: Pages, feet: map<Key, seq<RID>>, key: Key, foot: seq<RID>)
    requires NoLeak(p0, feet) && Adds(p0, p1, foot) && Frees(p1, p2, FootOf(feet, key))
    ensures NoLeak(p2, feet[key := foot])
  {
    var feet' := feet[key := foot];
    forall r | Cell(p2, r).Some?
      ensures exists k :: k in feet' && r in feet'[k]
    {
      if r in foot {
        assert key in feet' && r in feet'[key];
      } else {
        assert Cell(p0, r).Some?;
        var k :| k in feet && r in feet[k];
        assert k in feet' && r in feet'[k];
      }
    }
  }

  lemma DeleteKeeps(p0: Pages, p1: Pages, index: map<Key, RID>, feet: map<Key, seq<RID>>, values: map<Key, Bytes>,
                    key: Key)
    requires RecordsHold(p0, index, feet, values) && key in feet && Frees(p0, p1, feet[key])
    ensures RecordsHold(p1, index - {key}, feet - {key}, values - {key})
  {
    forall k | k in values - {key}
      ensures KeyStored(p1, index - {key}, feet - {key}, values - {key}, k)
    {
      assert KeyStored(p0, index, feet, values, k);
      StoredFrame(p0, p1, index[k], feet[k], values[k]);
    }
    forall r | Cell(p1, r).Some?
      ensures exists k :: k in feet - {key} && r in (feet - {key})[k]
    {
      assert Cell(p0, r).Some?;
      var k :| k in feet && r in feet[k];
      assert k in feet - {key} && r in (feet - {key})[k];
    }
  }

  /** The manifest completes a chain that was already in place. */
  lemma ManifestStored(p1: Pages, p2: Pages, chain: seq<RID>, head: RID, value: Bytes)
    requires MAX_RECORD_SIZE < |value| <= MAX_VALUE_SIZE && chain != [] && AllAddressable(chain) && Addressable(head)
    requires Linked(Reader(p1), chain, Parts(value)) && Adds(p1, p2, [head])
    requires ManifestAt(p2, head, ManifestFor(value, chain[0]))
    ensures StoredAt(p2, Flagged(head), chain + [head], value)
  {
  }

  lemma OnePartMore(parts: seq<Bytes>, i: nat)
    requires 0 < i <= |parts|
    ensures parts[i - 1..] == [parts[i - 1]] + parts[i..]
  {
  }

  lemma AddsPermuted(p0: Pages, p1: Pages, a: seq<RID>, b: seq<RID>)
    requires Adds(p0, p1, a) && forall r :: r in a <==> r in b
    ensures Adds(p0, p1, b)
  {
  }

  lemma AddsSame(p0: Pages, p1: Pages, p2: Pages, a: seq<RID>)
    requires Adds(p0, p1, a) && SameCells(p1, p2)
    ensures Adds(p0, p2, a)
  {
  }

  lemma SameRecords(p0: Pages, p1: Pages, index: map<Key, RID>, feet: map<Key, seq<RID>>, values: map<Key, Bytes>)
    requires RecordsHold(p0, index, feet, values) && SameCells(p0, p1)
    ensures RecordsHold(p1, index, feet, values)
  {
    forall k | k in values
      ensures KeyStored(p1, index, feet, values, k)
    {
      assert KeyStored(p0, index, feet, values, k);
      StoredFrame(p0, p1, index[k], feet[k], values[k]);
    }
    forall r | Cell(p1, r).Some?
      ensures exists k :: k in feet && r in feet[k]
    {
      assert Cell(p0, r).Some?;
    }
  }

  lemma OldAfterAdds(p0: Pages, p1: Pages, index: map<Key, RID>, feet: map<Key, seq<RID>>, values: map<Key, Bytes>,
                     foot: seq<RID>, k: Key)
    requires RecordsHold(p0, index, feet, values) && Adds(p0, p1, foot)
    ensures k in feet ==> k in index && k in values && StoredAt(p1, index[k], feet[k], values[k])
  {
  }

  /** The data file: data pages, nodes, and what the meta page names. */
  datatype Image = Image(pages: Pages, nodes: TreeInvariant.Pages, root: PageId, numPages: nat, active: PageId)

  ghost predicate ImageOf(image: Image, limit: nat, own: TreeInvariant.Spans, index: map<Key, RID>, feet: map<Key,
                          seq<RID>>,
                          values: map<Key, Bytes>) {
    && PagesHold(image.pages, image.numPages) && image.numPages <= limit <= TWO_TO_64 && image.active in image.pages
    && BPlusTrees.TreeHolds(image.nodes, image.root, own, index, image.numPages)
    && TreeFill.LeavesFilled(image.nodes, own, {})
    && image.nodes.Keys !! image.pages.Keys && RecordsHold(image.pages, index, feet, values)
  }

  /** The file holds exactly these values. */
  ghost predicate ImageHolds(image: Image, limit: nat, values: map<Key, Bytes>) {
    exists own, index, feet :: ImageOf(image, limit, own, index, feet, values)
  }

  // ---------- why a batch is not applied ----------

  /** A store of these values whose tree does not survive the deletion of a key it has. */
  ghost predicate GivesWay(limit: nat, values: map<Key, Bytes>, key: Key) {
    exists image, own, index, feet ::
      ImageOf(image, limit, own, index, feet, values) && TreeGivesWay(image, own, index, key)
  }

  ghost predicate TreeGivesWay(image: Image, own: TreeInvariant.Spans, index: map<Key, RID>, key: Key) {
    key in index && !BPlusTrees.DeleteKeepsTree(image.nodes, image.root, own, index, key)
  }

  /** A store of these values that has no room for a value, or would have to split a leaf to lead to it. */
  ghost predicate Stuck(limit: nat, lost: set<PageId>, values: map<Key, Bytes>, key: Key, value: Bytes) {
    exists image, own, index, feet ::
      ImageOf(image, limit, own, index, feet, values) && CannotPut(image, own, index, lost, key, value)
  }

  ghost predicate CannotPut(image: Image, own: TreeInvariant.Spans, index: map<Key, RID>, lost: set<PageId>, key: Key,
                            value: Bytes) {
    HasNoRoom(image.pages, lost, value) || BPlusTrees.Overflows(image.nodes, own, index, key)
  }

  /** One of the operations is a deletion that the tree does not survive where it comes to it. */
  ghost predicate BreaksIn(limit: nat, values: map<Key, Bytes>, ops: seq<Op>) {
    exists n :: 0 <= n < |ops| && BreaksAt(limit, values, ops, n)
  }

  ghost predicate BreaksAt(limit: nat, values: map<Key, Bytes>, ops: seq<Op>, n: nat)
    requires n < |ops|
  {
    ops[n].Delete? && GivesWay(limit, AllApplied(values, ops[..n]), ops[n].key)
  }

  /** One of the operations is a put that the store cannot take in where it comes to it. */
  ghost predicate StuckIn(limit: nat, lost: set<PageId>, values: map<Key, Bytes>, ops: seq<Op>) {
    exists n :: 0 <= n < |ops| && StuckAt(limit, lost, values, ops, n)
  }

  ghost predicate StuckAt(limit: nat, lost: set<PageId>, values: map<Key, Bytes>, ops: seq<Op>, n: nat)
    requires n < |ops|
  {
    ops[n].Put? && Stuck(limit, lost, AllApplied(values, ops[..n]), ops[n].key, ops[n].value)
  }

  lemma StopsHere(limit: nat, lost: set<PageId>, values: map<Key, Bytes>, ops: seq<Op>, n: nat, outcome: Outcome)
    requires n < |ops|
    requires outcome == TreeBroken ==> ops[n].Delete? && GivesWay(limit, AllApplied(values, ops[..n]), ops[n].key)
    requires outcome == Halted ==>
      ops[n].Put? && Stuck(limit, lost, AllApplied(values, ops[..n]), ops[n].key, ops[n].value)
    ensures outcome == TreeBroken ==> BreaksIn(limit, values, ops)
    ensures outcome == Halted ==> StuckIn(limit, lost, values, ops)
  {
    if outcome == TreeBroken {
      assert BreaksAt(limit, values, ops, n);
    } else if outcome == Halted {
      assert StuckAt(limit, lost, values, ops, n);
    }
  }

  class RecordStore {
    var pages: Pages
    /** The index from keys to records; its nodes are pages of the same file. */
    const tree: BPlusTrees.BPlusTree
    const limit: nat
    /** The pages that were there when the engine was last started: the table of free space is not kept over a restart.
        */
    ghost const lost: set<PageId>
    var active: PageId
    var reclaim: FreeTable
    ghost var feet: map<Key, seq<RID>>
    ghost var values: map<Key, Bytes>

    ghost predicate HasSpace()
      reads this, tree`numPages
    {
      SpaceHolds(pages, tree.numPages, limit, active, reclaim, lost)
    }

    /** values is what the store maps its keys to, and no page is both a node and a data page. */
    ghost predicate Valid()
      reads this, tree
    {
      && HasSpace() && tree.Valid() && tree.pages.Keys !! pages.Keys
      && RecordsHold(pages, tree.contents, feet, values)
    }

    /** Whether the tree survives the deletion of a key. */
    ghost predicate DeleteKeepsTree(key: Key)
      reads tree
    {
      BPlusTrees.DeleteKeepsTree(tree.pages, tree.rootPageID, tree.own, tree.contents, key)
    }

    ghost function Now(): Image
      reads this, tree
    {
      Image(pages, tree.pages, tree.rootPageID, tree.numPages, active)
    }

    /** What the store holds is a file of its values. */
    ghost predicate NowHolds()
      reads this, tree
    {
      ImageOf(Now(), limit, tree.own, tree.contents, feet, values)
    }

    /** Whether a new entry for the key makes the tree split. */
    ghost predicate LeafIsFull(key: Key)
      reads tree
    {
      BPlusTrees.Overflows(tree.pages, tree.own, tree.contents, key)
    }

    /** The page file grows by one page, unless it may not grow any more. */
    method NewPage() returns (id: Option<PageId>)
      requires HasSpace()
      modifies `pages, tree`numPages
      ensures id.None? ==> tree.numPages == limit && pages == old(pages) && tree.numPages == old(tree.numPages)
      ensures id.Some? ==> id.value == old(tree.numPages) && tree.numPages == old(tree.numPages) + 1 <= limit
      ensures id.Some? ==> pages == old(pages)[id.value := EMPTY_PAGE]
    {
      if tree.numPages == limit {
        return None;
      }
      var newID := tree.NewPage();
      pages := pages[newID := EMPTY_PAGE];
      return Some(newID);
    }

    /** A page other than the active one with room for size bytes: a tracked page if one has room, else a fresh page. */
    method NextDataPage(size: nat) returns (id: Option<PageId>)
      requires HasSpace() && size <= MAX_RECORD_SIZE
      modifies `pages, `reclaim, tree`numPages
      ensures Grows(old(pages), old(tree.numPages), pages, tree.numPages)
      ensures PagesHold(pages, tree.numPages) && tree.numPages <= limit && SameCells(old(pages), pages)
      ensures active in pages && Room(pages[active]) == Room(old(pages[active]))
      ensures id.None? ==> HasSpace() && tree.numPages == limit == old(tree.numPages)
      ensures id.Some? ==> id.value in pages && id.value != active && Tracks(reclaim, pages, {active, id.value}, lost)
      ensures id.Some? ==> size + SLOT_SIZE <= pages[id.value].FreeSpace()
      ensures id.None? || tree.numPages > old(tree.numPages) ==>
        NoneFits(old(pages), old(reclaim), old(reclaim.Keys), size + SLOT_SIZE)
      ensures old(tree.numPages) <= tree.numPages <= old(tree.numPages) + 1
    {
      pages, reclaim, id := SearchReclaim(pages, reclaim, active, tree.numPages, size + SLOT_SIZE, lost);
      if id.None? {
        NewPageStep(pages, tree.numPages, reclaim, {active}, lost);
        assert {active} + {tree.numPages} == {active, tree.numPages};
        id := NewPage();
      }
    }

    /** Remembers a page's free space: the mark that it must be measured again outlives any exact entry, and every other
        page keeps its entry. */
    method TrackFree(id: PageId, free: int)
      modifies `reclaim
      ensures id in reclaim && reclaim == old(reclaim)[id := reclaim[id]]
      ensures id in old(reclaim) && old(reclaim)[id] == UNKNOWN_FREE ==> reclaim[id] == UNKNOWN_FREE
      ensures !(id in old(reclaim) && old(reclaim)[id] == UNKNOWN_FREE) ==> reclaim[id] == free
    {
      if free == UNKNOWN_FREE || id !in reclaim || reclaim[id] != UNKNOWN_FREE {
        reclaim := reclaim[id := free];
      }
    }

    method Place(id: PageId, t: Bytes) returns (rid: RID)
      requires PagesHold(pages, tree.numPages) && id in pages && Fits(pages[id], |t|)
      requires tree.numPages <= limit <= TWO_TO_64
      requires Tracks(reclaim, pages, {id}, lost)
      modifies `pages
      ensures pages.Keys == old(pages.Keys)
      ensures PagesHold(pages, tree.numPages) && Tracks(reclaim, pages, {id}, lost) && id in pages
      ensures Adds(old(pages), pages, [rid]) && Cell(pages, rid) == Some(t) && Addressable(rid)
    {
      InsertStep(pages, tree.numPages, id, t);
      TracksUpdate(reclaim, pages, id, TupleInserted(pages[id], t), lost);
      rid := TupleAddress(pages, id);
      pages := WithTuple(pages, id, t);
    }

    /** Makes another page with room for the tuple the active one, and stores the tuple there. */
    method InsertElsewhere(t: Bytes) returns (rid: Option<RID>)
      requires HasSpace() && |t| <= MAX_RECORD_SIZE && pages[active].FreeSpace() == Room(pages[active])
      modifies `pages, `reclaim, `active, tree`numPages
      ensures Grows(old(pages), old(tree.numPages), pages, tree.numPages)
      ensures HasSpace() && old(tree.numPages) <= tree.numPages
      ensures rid.Some? ==>
        Adds(old(pages), pages, [rid.value]) && Cell(pages, rid.value) == Some(t) && Addressable(rid.value)
      ensures rid.None? ==> SameCells(old(pages), pages) && old(tree.numPages) == limit
      ensures rid.None? || tree.numPages > old(tree.numPages) ==>
        NoneFits(old(pages), old(reclaim), old(reclaim.Keys), |t| + SLOT_SIZE)
    {
      var leftover := pages[active].FreeSpace();
      var oldActive := active;
      var id := NextDataPage(|t|);
      if id.None? {
        return None;
      }
      active := id.value;
      SwitchStep(pages, reclaim, oldActive, active, leftover, lost);
      if leftover >= MIN_TRACKED_FREE {
        TrackFree(oldActive, leftover);
      }
      var r := Place(active, t);
      return Some(r);
    }

    method CompactActive()
      requires HasSpace()
      modifies `pages
      ensures pages.Keys == old(pages.Keys)
      ensures HasSpace() && SameCells(old(pages), pages) && SameRooms(old(pages), pages)
      ensures pages[active].FreeSpace() == Room(pages[active])
    {
      CompactStep(pages, tree.numPages, active);
      TracksSameRooms(reclaim, pages, WithCompacted(pages, active), {active}, lost);
      pages := WithCompacted(pages, active);
    }

    /** Stores a tuple, reusing dead space before the file grows. */
    method InsertTuple(t: Bytes) returns (rid: Option<RID>)
      requires HasSpace() && |t| <= MAX_RECORD_SIZE
      modifies `pages, `reclaim, `active, tree`numPages
      ensures Grows(old(pages), old(tree.numPages), pages, tree.numPages)
      ensures HasSpace() && old(tree.numPages) <= tree.numPages
      ensures rid.Some? ==>
        Adds(old(pages), pages, [rid.value]) && Cell(pages, rid.value) == Some(t) && Addressable(rid.value)
      ensures rid.None? ==> SameCells(old(pages), pages) && old(tree.numPages) == limit
      ensures rid.None? || tree.numPages > old(tree.numPages) ==> OutOfRoom(old(pages), old(active), old(reclaim), |t|)
      ensures rid.None? ==> NoPageFits(old(pages), lost, |t|)
    {
      if Fits(pages[active], |t|) {
        var r := Place(active, t);
        return Some(r);
      }
      CompactActive();
      if Fits(pages[active], |t|) {
        var r := Place(active, t);
        return Some(r);
      }
      rid := InsertElsewhere(t);
      if rid.None? {
        OutOfRoomIsFull(old(pages), old(active), old(reclaim), lost, |t|, |t|);
      }
    }

    /** Tombstones a tuple and queues its page to be measured again. */
    method FreeTuple(r: RID)
      requires HasSpace()
      modifies `pages, `reclaim
      ensures pages.Keys == old(pages.Keys)
      ensures HasSpace() && Frees(old(pages), pages, [r])
      ensures reclaim ==
        if r.pageID in pages && r.pageID != active then old(reclaim)[r.pageID := UNKNOWN_FREE] else old(reclaim)
    {
      if r.pageID !in pages {
        return;
      }
      DeleteStep(pages, tree.numPages, r);
      pages := pages[r.pageID := TupleDeleted(pages[r.pageID], r.slotID)];
      if r.pageID != active {
        TrackFree(r.pageID, UNKNOWN_FREE);
      }
    }

    method FreeTuples(tuples: seq<RID>)
      requires HasSpace()
      modifies `pages, `reclaim
      ensures pages.Keys == old(pages.Keys)
      ensures HasSpace() && Frees(old(pages), pages, tuples)
    {
      for i := 0 to |tuples|
        invariant HasSpace() && Frees(old(pages), pages, tuples[..i]) && pages.Keys == old(pages.Keys)
      {
        ghost var before := pages;
        FreeTuple(tuples[i]);
        FreesThenFree(old(pages), before, pages, tuples[..i], tuples[i]);
        assert tuples[..i + 1] == tuples[..i] + [tuples[i]];
      }
      assert tuples[..|tuples|] == tuples;
    }

    /** Frees exactly the tuples a sound value was read from, and nothing behind an unsound chain. */
    method FreeValue(rid: RID)
      requires HasSpace()
      modifies `pages, `reclaim
      ensures pages.Keys == old(pages.Keys)
      ensures HasSpace()
      ensures Load(old(pages), rid).Some? ==> Frees(old(pages), pages, Load(old(pages), rid).value.tuples)
      ensures Load(old(pages), rid).None? ==> SameCells(old(pages), pages)
    {
      var tuples := TuplesToFree(pages, rid);
      FreeTuples(tuples);
    }

    /** Writes one chunk before the chain, if there is room; p0 and n0 are from before the chain. */
    method WriteChunk(chain: seq<RID>, part: Bytes, ghost parts: seq<Bytes>, ghost p0: Pages, ghost n0: nat)
      returns (rid: Option<RID>)
      requires HasSpace() && |part| <= CHUNK_PAYLOAD
      requires AllAddressable(chain) && Linked(Reader(pages), chain, parts)
      requires Adds(p0, pages, chain) && Grows(p0, n0, pages, tree.numPages)
      modifies `pages, `reclaim, `active, tree`numPages
      ensures HasSpace() && Grows(p0, n0, pages, tree.numPages)
      ensures rid.None? ==> tree.numPages == limit && Adds(p0, pages, chain)
      ensures rid.None? ==> PieceFitsNowhere(p0, old(pages), chain, lost)
      ensures rid.Some? ==> AllAddressable([rid.value] + chain) && Adds(p0, pages, [rid.value] + chain)
      ensures rid.Some? ==> Linked(Reader(pages), [rid.value] + chain, [part] + parts)
    {
      ghost var before := pages;
      rid := InsertTuple(ChunkBytes(Head(chain), part));
      if rid.Some? {
        LinkStep(before, pages, rid.value, chain, part, parts);
        AddsThenAdds(p0, before, pages, chain, [rid.value]);
      }
    }

    /** Writes the chunks tail first, so that each can name its successor; gives up if the file may not grow. */
    method WriteChunks(parts: seq<Bytes>) returns (ok: bool, chain: seq<RID>)
      requires HasSpace() && forall j :: 0 <= j < |parts| ==> |parts[j]| <= CHUNK_PAYLOAD
      modifies `pages, `reclaim, `active, tree`numPages
      ensures Grows(old(pages), old(tree.numPages), pages, tree.numPages)
      ensures HasSpace() && AllAddressable(chain) && Adds(old(pages), pages, chain)
      ensures ok ==> Linked(Reader(pages), chain, parts)
      ensures ok ==> |chain| == |parts|
      ensures !ok ==> tree.numPages == limit && SomePieceFitsNowhere(old(pages), lost, |parts|)
    {
      chain := [];
      var i: nat := |parts|;
      while i > 0
        invariant i <= |parts| && |chain| == |parts| - i
        invariant HasSpace() && AllAddressable(chain) && Adds(old(pages), pages, chain)
        invariant Grows(old(pages), old(tree.numPages), pages, tree.numPages)
        invariant Linked(Reader(pages), chain, parts[i..])
      {
        var rid := WriteChunk(chain, parts[i - 1], parts[i..], old(pages), old(tree.numPages));
        if rid.None? {
          return false, chain;
        }
        OnePartMore(parts, i);
        chain, i := [rid.value] + chain, i - 1;
      }
      assert parts[0..] == parts;
      ok := true;
    }

    /** Stores a value inline or as a chain; if the file may not grow, whatever was written is taken back. */
    method InsertValue(value: Bytes) returns (rid: Option<RID>, ghost foot: seq<RID>)
      requires HasSpace() && |value| <= MAX_VALUE_SIZE
      modifies `pages, `reclaim, `active, tree`numPages
      ensures Grows(old(pages), old(tree.numPages), pages, tree.numPages)
      ensures HasSpace()
      ensures rid.Some? ==> Adds(old(pages), pages, foot) && StoredAt(pages, rid.value, foot, value)
      ensures rid.None? ==> SameCells(old(pages), pages) && tree.numPages == limit
      ensures rid.None? ==> HasNoRoom(old(pages), lost, value)
    {
      if |value| <= MAX_RECORD_SIZE {
        rid := InsertTuple(value);
        return rid, if rid.Some? then [rid.value] else [];
      }
      var ok, chain := WriteChunks(Parts(value));
      ghost var before := pages;
      if ok {
        var head := InsertTuple(ManifestBytes(ManifestFor(value, chain[0])));
        if head.Some? {
          ManifestStored(before, pages, chain, head.value, value);
          AddsThenAdds(old(pages), before, pages, chain, [head.value]);
          AddsPermuted(old(pages), pages, [head.value] + chain, chain + [head.value]);
          return Some(Flagged(head.value)), chain + [head.value];
        }
        assert PieceFitsNowhere(old(pages), before, chain, lost);
      }
      AddsSame(old(pages), before, pages, chain);
      ghost var after := pages;
      FreeTuples(chain);
      AddsThenFrees(old(pages), after, pages, chain);
      return None, [];
    }

    /** Page 0 of a new file is the meta page, page 1 the root of the tree, and page 2 the first data page. */
    constructor (limit: nat)
      requires 3 <= limit <= TWO_TO_64
      ensures Valid() && values == map[] && fresh(tree) && this.limit == limit
    {
      tree := new BPlusTrees.BPlusTree(1);
      this.limit, lost := limit, {};
      feet, values := map[], map[];
      new;
      var dataID := tree.NewPage();
      pages, active, reclaim := map[dataID := EMPTY_PAGE], dataID, map[];
      assert forall r :: Cell(pages, r).None?;
    }

    /** Opens an existing file; which pages have room to spare is not known then. */
    constructor Open(image: Image, limit: nat, ghost values: map<Key, Bytes>)
      requires ImageHolds(image, limit, values)
      ensures Valid() && this.values == values && this.limit == limit && fresh(tree)
    {
      ghost var own, index, foots :| ImageOf(image, limit, own, index, foots, values);
      tree := new BPlusTrees.BPlusTree.Open(image.nodes, image.root, image.numPages, own, index);
      this.limit, lost := limit, image.pages.Keys;
      pages, active, reclaim := image.pages, image.active, map[];
      feet, this.values := foots, values;
    }

    /** What a flush of every page leaves in the file. */
    method ToImage() returns (image: Image)
      requires Valid()
      ensures ImageHolds(image, limit, values)
    {
      image := Image(pages, tree.pages, tree.metaRoot, tree.numPages, active);
      assert ImageOf(image, limit, tree.own, tree.contents, feet, values);
    }

    /** Frees the value a key had before, if it had one. */
    method FreeReplaced(rid: Option<RID>, ghost foot: seq<RID>, ghost value: Bytes)
      requires HasSpace()
      requires if rid.Some? then StoredAt(pages, rid.value, foot, value) else foot == []
      modifies `pages, `reclaim
      ensures HasSpace() && Frees(old(pages), pages, foot) && pages.Keys == old(pages.Keys)
    {
      if rid.Some? {
        LoadStored(pages, rid.value, foot, value);
        FreeValue(rid.value);
      }
    }

    /** Stores a new value and leads the key to it; the old value is still there. */
    method PutBeside(key: uint64, value: Bytes) returns (outcome: PutOutcome, ghost rid: RID, ghost foot: seq<RID>)
      requires Valid() && |value| <= MAX_VALUE_SIZE
      modifies `pages, `reclaim, `active, tree
      ensures outcome == Stored ==> HasSpace() && tree.Valid() && tree.pages.Keys !! pages.Keys
      ensures outcome == Stored ==> tree.contents == old(tree.contents)[key := rid]
      ensures outcome == Stored ==> Adds(old(pages), pages, foot) && StoredAt(pages, rid, foot, value)
      ensures outcome == NoRoom ==> Valid() && tree.contents == old(tree.contents) && tree.numPages == limit
      ensures outcome == NoRoom ==> HasNoRoom(old(pages), lost, value)
      ensures outcome == TreeHalted ==> tree.numPages > limit && old(LeafIsFull(key))
    {
      ghost var p0, n0, nodes0 := pages, tree.numPages, tree.pages;
      var r;
      r, foot := InsertValue(value);
      KeepApart(nodes0, p0, n0, pages, tree.numPages);
      if r.None? {
        SameRecords(p0, pages, tree.contents, feet, values);
        return NoRoom, RID(0, 0), [];
      }
      rid := r.value;
      ghost var n1 := tree.numPages;
      tree.Insert(key, r.value);
      if tree.numPages > limit {
        return TreeHalted, rid, foot;
      }
      NodesKeepApart(pages, nodes0, n1, tree.pages);
      return Stored, rid, foot;
    }

    /** Writes the value of a key and frees the value it replaces. Without room for the value nothing the store maps has
        changed; without room for new nodes of the tree the engine halts. */
    method ApplyPut(key: uint64, value: Bytes) returns (outcome: PutOutcome)
      requires Valid() && |value| <= MAX_VALUE_SIZE
      modifies this, tree
      ensures outcome == Stored ==> Valid() && values == old(values)[key := value]
      ensures outcome == NoRoom ==>
        Valid() && values == old(values) && tree.numPages == limit && HasNoRoom(old(pages), lost, value)
      ensures outcome == TreeHalted ==> values == old(values) && tree.numPages > limit && old(LeafIsFull(key))
    {
      var oldRID := tree.Find(key);
      ghost var p0, index0 := pages, tree.contents;
      ghost var rid, foot;
      outcome, rid, foot := PutBeside(key, value);
      if outcome == Stored {
        FreeBehind(key, value, oldRID, p0, index0, rid, foot);
      }
    }

    /** Frees what the key led to before; p0 and index0 are from before the new value was put beside it. */
    method FreeBehind(key: uint64, ghost value: Bytes, oldRID: Option<RID>, ghost p0: Pages, ghost index0: map<Key,
                      RID>,
                      ghost rid: RID, ghost foot: seq<RID>)
      requires HasSpace() && tree.pages.Keys !! pages.Keys && RecordsHold(p0, index0, feet, values)
      requires Adds(p0, pages, foot) && StoredAt(pages, rid, foot, value)
      requires oldRID == if key in index0 then Some(index0[key]) else None
      modifies `pages, `reclaim, `feet, `values
      ensures HasSpace() && tree.pages.Keys !! pages.Keys && values == old(values)[key := value]
      ensures RecordsHold(pages, index0[key := rid], feet, values)
    {
      ghost var p1 := pages;
      OldAfterAdds(p0, p1, index0, feet, values, foot, key);
      FreeReplaced(oldRID, FootOf(feet, key), if key in feet then values[key] else []);
      PutKeeps(p0, p1, pages, index0, feet, values, key, rid, foot, value);
      feet, values := feet[key := foot], values[key := value];
    }

    /** Frees the value of a key that has one; the index still leads to it. */
    method FreeOld(key: uint64, rid: RID)
      requires Valid() && key in tree.contents && rid == tree.contents[key]
      modifies `pages, `reclaim, `feet, `values
      ensures HasSpace() && tree.pages.Keys !! pages.Keys && values == old(values) - {key as Key}
      ensures RecordsHold(pages, tree.contents - {key as Key}, feet, values)
    {
      ghost var p0 := pages;
      assert KeyStored(pages, tree.contents, feet, values, key);
      FreeReplaced(Some(rid), feet[key], values[key]);
      DeleteKeeps(p0, pages, tree.contents, feet, values, key);
      feet, values := feet - {key}, values - {key};
    }

    /** Frees the value of a key and deletes the key from the tree: a map removal exactly when the tree survives it. */
    method ApplyDelete(key: uint64)
      requires Valid()
      modifies this, tree
      ensures values == old(values) - {key as Key}
      ensures key !in old(values) || old(DeleteKeepsTree(key)) ==> Valid()
      ensures key in old(values) && !old(DeleteKeepsTree(key)) ==> tree.Broken()
    {
      var rid := tree.Find(key);
      if rid.None? {
        assert values - {key} == values;
        return;
      }
      FreeOld(key, rid.value);
      var found := tree.Delete(key);
    }

    /** Whether deleting a key is safe, as the pages of the tree show. */
    method DeletesCleanly(key: uint64) returns (clean: bool)
      requires Valid()
      ensures clean <==> key !in values || DeleteKeepsTree(key)
    {
      var rid := tree.Find(key);
      if rid.None? {
        return true;
      }
      clean := tree.KeepsTree(key);
    }

    /** The value a record of the index holds. */
    method ReadTuple(rid: RID, ghost key: Key) returns (value: Bytes)
      requires Valid() && key in tree.contents && tree.contents[key] == rid
      ensures key in values && value == values[key]
    {
      assert KeyStored(pages, tree.contents, feet, values, key);
      LoadStored(pages, rid, feet[key], values[key]);
      var v := ReadValue(pages, rid);
      return v.value;
    }

    method Get(key: uint64) returns (value: Option<Bytes>)
      requires Valid()
      ensures value == if key in values then Some(values[key]) else None
    {
      var rid := tree.Find(key);
      if rid.None? {
        return None;
      }
      var v := ReadTuple(rid.value, key);
      return Some(v);
    }

    method CheckCondition(key: uint64, c: Condition) returns (ok: bool)
      requires Valid()
      ensures ok == Meets(ValueOf(values, key), c)
      ensures c == Unconditional ==> ok
      ensures c == Absent ==> (ok <==> key !in values)
      ensures c == Present ==> (ok <==> key in values)
      ensures c.ValueEquals? ==> (ok <==> key in values && values[key] == c.value)
    {
      if c.Unconditional? {
        return true;
      }
      var rid := tree.Find(key);
      if rid.None? {
        return c.Absent?;
      }
      match c
      case Absent => return false;
      case ValueEquals(v) =>
        var current := Get(key);
        return current == Some(v);
      case _ => return true;
    }

    method CheckConditions(conds: seq<(uint64, Condition)>) returns (ok: bool)
      requires Valid()
      ensures ok <==> AllMet(values, conds)
    {
      for i := 0 to |conds|
        invariant AllMet(values, conds[..i])
      {
        ok := CheckCondition(conds[i].0, conds[i].1);
        MetSoFar(values, conds, i);
        if !ok {
          return;
        }
      }
      assert conds[..|conds|] == conds;
      return true;
    }

    /** One operation of a batch; anything but Done ends it. */
    method ApplyOne(op: Op) returns (outcome: Outcome)
      requires Valid() && Storable(op)
      modifies this, tree
      ensures outcome == Done ==> Valid() && values == Applied(old(values), op)
      ensures outcome == Halted ==>
        values == old(values) && tree.numPages >= limit && (tree.numPages == limit ==> Valid())
      ensures outcome == Halted ==> op.Put? && (HasNoRoom(old(pages), lost, op.value) || old(LeafIsFull(op.key)))
      ensures outcome == TreeBroken <==> op.Delete? && op.key in old(values) && !old(DeleteKeepsTree(op.key))
      ensures outcome == TreeBroken ==> tree.Broken()
      ensures outcome == Halted ==> Stuck(limit, lost, old(values), op.key, op.value)
      ensures outcome == TreeBroken ==> GivesWay(limit, old(values), op.key)
      ensures outcome != ConditionFailed
    {
      assert NowHolds();
      if op.Put? {
        var put := ApplyPut(op.key, op.value);
        return if put == Stored then Done else Halted;
      }
      var clean := DeletesCleanly(op.key);
      ApplyDelete(op.key);
      return if clean then Done else TreeBroken;
    }

    /** The operations one after the other, until one is not applied: then the file is full, or it is a deletion that
        the tree does not survive. */
    method ApplyAll(ops: seq<Op>) returns (outcome: Outcome)
      requires Valid() && AllStorable(ops)
      modifies this, tree
      ensures outcome == Done ==> Valid() && values == AllApplied(old(values), ops)
      ensures outcome == Halted ==>
        tree.numPages >= limit && exists n :: 0 <= n < |ops| && values == AllApplied(old(values), ops[..n])
      ensures outcome == Halted ==> StuckIn(limit, lost, old(values), ops)
      ensures outcome == TreeBroken ==> tree.Broken() && BreaksIn(limit, old(values), ops)
      ensures outcome != ConditionFailed
    {
      for i := 0 to |ops|
        invariant Valid() && values == AllApplied(old(values), ops[..i])
      {
        assert ops[..i + 1][..i] == ops[..i];
        outcome := ApplyOne(ops[i]);
        if outcome != Done {
          StopsHere(limit, lost, old(values), ops, i, outcome);
          return;
        }
      }
      assert ops[..|ops|] == ops;
      return Done;
    }

    /** All the conditions hold and the operations apply, or a condition fails and nothing changes. */
    method BatchWriteIf(ops: seq<Op>, conds: seq<(uint64, Condition)>) returns (outcome: Outcome)
      requires Valid() && AllStorable(ops)
      modifies this, tree
      ensures outcome == Done ==> Valid() && values == AllApplied(old(values), ops)
      ensures outcome == ConditionFailed ==> Valid() && values == old(values)
      ensures outcome == ConditionFailed <==> !AllMet(old(values), conds)
      ensures outcome == Halted ==>
        tree.numPages >= limit && exists n :: 0 <= n < |ops| && values == AllApplied(old(values), ops[..n])
      ensures outcome == Halted ==> StuckIn(limit, lost, old(values), ops)
      ensures outcome == TreeBroken ==> tree.Broken() && BreaksIn(limit, old(values), ops)
    {
      var ok := CheckConditions(conds);
      if !ok {
        return ConditionFailed;
      }
      outcome := ApplyAll(ops);
    }
  }

  /** New data pages lie where the file has grown, beyond every node. */
  lemma KeepApart(nodes: TreeInvariant.Pages, before: Pages, from: nat, after: Pages, numPages: nat)
    requires nodes.Keys !! before.Keys && Grows(before, from, after, numPages) && forall id :: id in nodes ==> id < from
    ensures nodes.Keys !! after.Keys
  {
    forall id | id in nodes
      ensures id !in after
    {
      assert id in nodes.Keys && id !in before.Keys;
    }
  }

  lemma NodesKeepApart(pages: Pages, before: TreeInvariant.Pages, from: nat, after: TreeInvariant.Pages)
    requires before.Keys !! pages.Keys && (forall id :: id in pages ==> id < from)
    requires forall id :: id in after ==> id in before || from <= id
    ensures after.Keys !! pages.Keys
  {
    forall id | id in pages
      ensures id !in after
    {
      assert id in pages.Keys && id !in before.Keys;
    }
  }
}
