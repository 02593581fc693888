/** Values above one tuple: a chain of chunk tuples headed by a manifest tuple. */
module LargeValues {
  import opened Types
  import opened Codec
  import opened Crc32
  import opened Sequences
  import opened SlottedPages

  const MAX_RECORD_SIZE := 4000
  const LARGE_SLOT_FLAG := 0x8000
  const CHUNK_MAGIC: byte := 0xBC
  const MANIFEST_MAGIC: byte := 0xBD
  const MANIFEST_V1: byte := 1
  const CHUNK_HEADER := 11
  const MANIFEST_SIZE := 24
  const CHUNK_PAYLOAD := MAX_RECORD_SIZE - CHUNK_HEADER
  const MAX_CHUNKS := (MAX_VALUE_SIZE + CHUNK_PAYLOAD - 1) / CHUNK_PAYLOAD

  /** The data pages by number. */
  type Pages = map<PageId, Page>

  /** The tuple behind a record identifier: what readTuple returns. */
  function Cell(pages: Pages, r: RID): Option<Bytes> {
    if r.pageID in pages && r.slotID < |pages[r.pageID].slots| then pages[r.pageID].slots[r.slotID] else None
  }

  predicate IsLarge(r: RID) {
    r.slotID >= LARGE_SLOT_FLAG
  }

  function ManifestOf(r: RID): RID
    requires IsLarge(r)
  {
    RID(r.pageID, r.slotID - LARGE_SLOT_FLAG)
  }

  function Flagged(r: RID): RID {
    RID(r.pageID, r.slotID + LARGE_SLOT_FLAG)
  }

  /** A tuple address that fits the fields of a chunk header and is neither the end mark nor flagged. */
  ghost predicate Addressable(r: RID) {
    0 < r.pageID < TWO_TO_64 && r.slotID < LARGE_SLOT_FLAG
  }

  /** Page 0 is the meta page, so this address ends a chain. */
  const END_OF_CHAIN := RID(META_PAGE, 0)

  // ---------- tuple layouts ----------

  function RidBytes(r: RID): (b: Bytes)
    requires r.pageID >= 0
    ensures |b| == 10
  {
    PutLE(r.pageID, 8) + PutLE(r.slotID, 2)
  }

  function RidAt(t: Bytes, at: nat): RID
    requires at + 10 <= |t|
  {
    RID(GetLE(t[at..at + 8]), GetLE(t[at + 8..at + 10]))
  }

  function ChunkBytes(next: RID, part: Bytes): (t: Bytes)
    requires next.pageID >= 0
    ensures |t| == CHUNK_HEADER + |part|
  {
    [CHUNK_MAGIC] + RidBytes(next) + part
  }

  datatype Manifest = Manifest(length: nat, crc: nat, chunks: nat, first: RID)

  function ManifestBytes(m: Manifest): (t: Bytes)
    requires m.first.pageID >= 0
    ensures |t| == MANIFEST_SIZE
  {
    [MANIFEST_MAGIC, MANIFEST_V1] + PutLE(m.length, 4) + PutLE(m.crc, 4) + PutLE(m.chunks, 4) + RidBytes(m.first)
  }

  function ParseManifest(t: Bytes): Option<Manifest> {
    if |t| != MANIFEST_SIZE || t[0] != MANIFEST_MAGIC || t[1] != MANIFEST_V1 then None
    else
      var m := Manifest(GetLE(t[2..6]), GetLE(t[6..10]), GetLE(t[10..14]), RidAt(t, 14));
      if m.length > MAX_VALUE_SIZE || m.chunks == 0 || m.chunks > MAX_CHUNKS then None else Some(m)
  }

  lemma RidRoundTrip(r: RID, t: Bytes, at: nat)
    requires Addressable(r) || r == END_OF_CHAIN
    requires at + 10 <= |t| && t[at..at + 10] == RidBytes(r)
    ensures RidAt(t, at) == r
  {
    assert t[at..at + 8] == t[at..at + 10][..8] == PutLE(r.pageID, 8);
    assert t[at + 8..at + 10] == t[at..at + 10][8..] == PutLE(r.slotID, 2);
    RoundTrip64(r.pageID);
    RoundTrip16(r.slotID);
  }

  lemma ChunkRoundTrip(next: RID, part: Bytes)
    requires Addressable(next) || next == END_OF_CHAIN
    ensures ChunkBytes(next, part)[0] == CHUNK_MAGIC
    ensures RidAt(ChunkBytes(next, part), 1) == next && ChunkBytes(next, part)[CHUNK_HEADER..] == part
  {
    var t := ChunkBytes(next, part);
    assert t[1..11] == RidBytes(next);
    RidRoundTrip(next, t, 1);
  }

  lemma ManifestRoundTrip(m: Manifest)
    requires m.length <= MAX_VALUE_SIZE && m.crc < TWO_TO_32 && 0 < m.chunks <= MAX_CHUNKS && Addressable(m.first)
    ensures ParseManifest(ManifestBytes(m)) == Some(m)
  {
    var t := ManifestBytes(m);
    assert t[2..6] == PutLE(m.length, 4);
    assert t[6..10] == PutLE(m.crc, 4);
    assert t[10..14] == PutLE(m.chunks, 4);
    assert t[14..24] == RidBytes(m.first);
    RoundTrip32(m.length);
    RoundTrip32(m.crc);
    RoundTrip32(m.chunks);
    RidRoundTrip(m.first, t, 14);
  }

  // ---------- chains ----------

  /** What one chunk tuple says: the address of the next one, and a slice of the value. */
  datatype Chunk = Chunk(next: RID, payload: Bytes)

  /** The chunk at an address, unless a structural check refuses it. */
  function ReadChunk(pages: Pages, r: RID): Option<Chunk> {
    if r.pageID == META_PAGE || IsLarge(r) then None
    else
      match Cell(pages, r)
      case None => None
      case Some(t) =>
        if |t| < CHUNK_HEADER || t[0] != CHUNK_MAGIC then None
        else Some(Chunk(RidAt(t, 1), t[CHUNK_HEADER..]))
  }

  function Reader(pages: Pages): RID -> Option<Chunk> {
    r => ReadChunk(pages, r)
  }

  /** The tuples a walk has visited and their payloads, in order. */
  datatype Visits = Visits(rids: seq<RID>, payloads: seq<Bytes>)

  /** A walk of exactly n chunks from next, or nothing if a check fails on the way or the chain goes on. */
  function Walk(read: RID -> Option<Chunk>, next: RID, n: nat): Option<Visits>
    decreases n
  {
    if n == 0 then
      if next.pageID != META_PAGE then None else Some(Visits([], []))
    else
      match read(next)
      case None => None
      case Some(c) => Preceded(next, c.payload, Walk(read, c.next, n - 1))
  }

  function Preceded(r: RID, payload: Bytes, rest: Option<Visits>): Option<Visits> {
    match rest
    case None => None
    case Some(v) => Some(Visits([r] + v.rids, [payload] + v.payloads))
  }

  function Joined(parts: seq<Bytes>): Bytes {
    if parts == [] then [] else parts[0] + Joined(parts[1..])
  }

  function Head(chain: seq<RID>): RID {
    if chain == [] then END_OF_CHAIN else chain[0]
  }

  /** The chain carries exactly these parts, each chunk naming its successor. */
  ghost predicate Linked(read: RID -> Option<Chunk>, chain: seq<RID>, parts: seq<Bytes>) {
    && |chain| == |parts|
    && forall j :: 0 <= j < |chain| ==> read(chain[j]) == Some(Chunk(Head(chain[j + 1..]), parts[j]))
  }

  lemma LinkedTail(read: RID -> Option<Chunk>, chain: seq<RID>, parts: seq<Bytes>)
    requires Linked(read, chain, parts) && chain != []
    ensures read(chain[0]) == Some(Chunk(Head(chain[1..]), parts[0])) && Linked(read, chain[1..], parts[1..])
  {
  }

  lemma {:induction false} WalkLinked(read: RID -> Option<Chunk>, chain: seq<RID>, parts: seq<Bytes>)
    requires Linked(read, chain, parts)
    ensures Walk(read, Head(chain), |chain|) == Some(Visits(chain, parts))
    decreases |chain|
  {
    if chain != [] {
      LinkedTail(read, chain, parts);
      WalkLinked(read, chain[1..], parts[1..]);
      HeadTail(chain);
      HeadTail(parts);
    }
  }

  // ---------- a value in the pages ----------

  function ChunkCount(length: nat): (n: nat)
    ensures n * CHUNK_PAYLOAD >= length && (n - 1) * CHUNK_PAYLOAD < length
    ensures length <= MAX_VALUE_SIZE ==> n <= MAX_CHUNKS
  {
    (length + CHUNK_PAYLOAD - 1) / CHUNK_PAYLOAD
  }

  /** The slice of the value that chunk i holds. */
  function Part(value: Bytes, i: nat): (p: Bytes)
    requires i * CHUNK_PAYLOAD <= |value|
    ensures |p| <= CHUNK_PAYLOAD
  {
    var start := i * CHUNK_PAYLOAD;
    value[start..if start + CHUNK_PAYLOAD < |value| then start + CHUNK_PAYLOAD else |value|]
  }

  function Parts(value: Bytes): (parts: seq<Bytes>)
    ensures |parts| == ChunkCount(|value|)
    ensures forall j :: 0 <= j < |parts| ==> |parts[j]| <= CHUNK_PAYLOAD
  {
    seq(ChunkCount(|value|), i requires 0 <= i < ChunkCount(|value|) => Part(value, i))
  }

  lemma {:induction false} JoinedFrom(value: Bytes, i: nat)
    requires i <= ChunkCount(|value|)
    ensures Joined(Parts(value)[i..]) == Rest(value, i)
    decreases ChunkCount(|value|) - i
  {
    var parts := Parts(value);
    if i < |parts| {
      JoinedFrom(value, i + 1);
      HeadTail(parts[i..]);
      assert parts[i..][1..] == parts[i + 1..];
      RestStep(value, i);
    }
  }

  /** The value from part i on. */
  function Rest(value: Bytes, i: nat): Bytes {
    value[if i * CHUNK_PAYLOAD < |value| then i * CHUNK_PAYLOAD else |value|..]
  }

  lemma RestStep(value: Bytes, i: nat)
    requires i < ChunkCount(|value|)
    ensures Part(value, i) + Rest(value, i + 1) == Rest(value, i)
  {
  }

  lemma JoinedParts(value: Bytes)
    ensures Joined(Parts(value)) == value
  {
    JoinedFrom(value, 0);
    assert Parts(value)[0..] == Parts(value);
  }

  ghost predicate AllAddressable(s: seq<RID>) {
    forall j :: 0 <= j < |s| ==> Addressable(s[j])
  }

  function ManifestFor(value: Bytes, first: RID): Manifest {
    Manifest(|value|, Checksum(value), ChunkCount(|value|), first)
  }

  ghost predicate ManifestAt(pages: Pages, r: RID, m: Manifest) {
    m.first.pageID >= 0 && Cell(pages, r) == Some(ManifestBytes(m))
  }

  /** The value is cut into the chunks of the chain, and the manifest at head describes it. */
  ghost predicate LargeAt(pages: Pages, chain: seq<RID>, head: RID, value: Bytes) {
    && chain != [] && AllAddressable(chain) && Addressable(head)
    && Linked(Reader(pages), chain, Parts(value))
    && ManifestAt(pages, head, ManifestFor(value, chain[0]))
  }

  /** rid leads to the value, whose footprint is the listed tuples: one inline tuple, or the chunks and the manifest. */
  ghost predicate StoredAt(pages: Pages, rid: RID, foot: seq<RID>, value: Bytes) {
    && foot != [] && |value| <= MAX_VALUE_SIZE
    && var n := |foot| - 1;
       if |value| <= MAX_RECORD_SIZE
       then n == 0 && foot[0] == rid && Addressable(rid) && Cell(pages, rid) == Some(value)
       else rid == Flagged(foot[n]) && LargeAt(pages, foot[..n], foot[n], value)
  }

  // ---------- reading a value back ----------

  /** A value together with the tuples it was read from. */
  datatype Loaded = Loaded(tuples: seq<RID>, value: Bytes)

  /** What rid leads to when every structural check, the length and the checksum agree. */
  function Load(pages: Pages, rid: RID): Option<Loaded> {
    if !IsLarge(rid) then
      match Cell(pages, rid) case None => None case Some(t) => Some(Loaded([rid], t))
    else
      match ManifestIn(pages, rid)
      case None => None
      case Some(m) => Checked(m, ManifestOf(rid), Walk(Reader(pages), m.first, m.chunks))
  }

  /** readManifest. */
  function ManifestIn(pages: Pages, rid: RID): Option<Manifest>
    requires IsLarge(rid)
  {
    match Cell(pages, ManifestOf(rid)) case None => None case Some(t) => ParseManifest(t)
  }

  function Checked(m: Manifest, head: RID, visits: Option<Visits>): Option<Loaded> {
    match visits
    case None => None
    case Some(v) =>
      if |Joined(v.payloads)| != m.length || Checksum(Joined(v.payloads)) != m.crc then None
      else Some(Loaded(v.rids + [head], Joined(v.payloads)))
  }

  lemma LoadLarge(pages: Pages, chain: seq<RID>, head: RID, value: Bytes)
    requires MAX_RECORD_SIZE < |value| <= MAX_VALUE_SIZE && LargeAt(pages, chain, head, value)
    ensures Load(pages, Flagged(head)) == Some(Loaded(chain + [head], value))
  {
    ManifestRoundTrip(ManifestFor(value, chain[0]));
    WalkLinked(Reader(pages), chain, Parts(value));
    JoinedParts(value);
    assert ManifestOf(Flagged(head)) == head;
  }

  /** A stored value loads back exactly, from exactly its footprint. */
  lemma LoadStored(pages: Pages, rid: RID, foot: seq<RID>, value: Bytes)
    requires StoredAt(pages, rid, foot, value)
    ensures Load(pages, rid) == Some(Loaded(foot, value))
  {
    var n := |foot| - 1;
    if |value| > MAX_RECORD_SIZE {
      assert foot[..n] + [foot[n]] == foot;
      LoadLarge(pages, foot[..n], foot[n], value);
    } else {
      assert foot == [rid];
    }
  }

  /** A footprint left alone still leads to its value. */
  lemma StoredFrame(pages: Pages, pages': Pages, rid: RID, foot: seq<RID>, value: Bytes)
    requires StoredAt(pages, rid, foot, value)
    requires forall j :: 0 <= j < |foot| ==> Cell(pages', foot[j]) == Cell(pages, foot[j])
    ensures StoredAt(pages', rid, foot, value)
  {
  }

  lemma LargeIsLive(pages: Pages, chain: seq<RID>, head: RID, value: Bytes)
    requires LargeAt(pages, chain, head, value)
    ensures Cell(pages, head).Some? && forall j :: 0 <= j < |chain| ==> Cell(pages, chain[j]).Some?
  {
  }

  lemma StoredIsLive(pages: Pages, rid: RID, foot: seq<RID>, value: Bytes, j: nat)
    requires StoredAt(pages, rid, foot, value) && j < |foot|
    ensures Cell(pages, foot[j]).Some?
  {
    var n := |foot| - 1;
    if |value| > MAX_RECORD_SIZE {
      LargeIsLive(pages, foot[..n], foot[n], value);
      assert j < n ==> foot[..n][j] == foot[j];
    } else {
      assert foot[j] == rid;
    }
  }

  /** Whatever has become of the chunks, a manifest left alone lets no value through that differs from the one stored in
      up to four bytes in a row, or in its length. */
  lemma DamageRefused(pages: Pages, pages': Pages, rid: RID, foot: seq<RID>, value: Bytes,
                      before: Bytes, x: Bytes, y: Bytes, after: Bytes)
    requires StoredAt(pages, rid, foot, value) && |value| > MAX_RECORD_SIZE
    requires Cell(pages', foot[|foot| - 1]) == Cell(pages, foot[|foot| - 1]) && Load(pages', rid).Some?
    requires value == before + x + after && |x| == |y| <= 4
    ensures |Load(pages', rid).value.value| == |value|
    ensures Load(pages', rid).value.value == before + y + after ==> x == y
  {
    var n := |foot| - 1;
    var m := ManifestFor(value, foot[..n][0]);
    ManifestRoundTrip(m);
    assert ManifestOf(rid) == foot[n] && LargeAt(pages, foot[..n], foot[n], value);
    assert ManifestAt(pages, foot[n], m) && ManifestIn(pages', rid) == Some(m);
    BurstChangesCrc(0, before, x, y, after);
  }
}
