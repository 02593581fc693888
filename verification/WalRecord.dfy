/** The record format of the write-ahead log, and reading a log back from its bytes. */
module WalRecords {
  import opened Types
  import opened Codec
  import opened Crc32
  import opened Sequences

  const HEADER_SIZE := 23
  const MAX_FRAME_SIZE := 0x200_0000

  const OP_PUT: byte := 1
  const OP_DELETE: byte := 2
  const OP_BATCH: byte := 4

  datatype Record = Record(lsn: nat, kind: byte, key: Bytes, value: Bytes)

  function FrameSize(r: Record): nat {
    HEADER_SIZE + |r.key| + |r.value|
  }

  /** The fields fit their widths and the frame fits the size limit. */
  ghost predicate WellFormed(r: Record) {
    r.lsn < TWO_TO_64 && |r.key| < TWO_TO_16 && FrameSize(r) <= MAX_FRAME_SIZE
  }

  /** The header fields as numbers. */
  datatype Header = Header(recLen: nat, lsn: nat, kind: byte, keyLen: nat, valLen: nat, crc: nat)

  function HeaderBytes(h: Header): (b: Bytes)
    ensures |b| == HEADER_SIZE
  {
    PutLE(h.recLen, 4) + PutLE(h.lsn, 8) + [h.kind] + PutLE(h.keyLen, 2) + PutLE(h.valLen, 4) + PutLE(h.crc, 4)
  }

  function ParseHeader(b: Bytes): Header
    requires |b| == HEADER_SIZE
  {
    Header(GetLE(b[0..4]), GetLE(b[4..12]), b[12], GetLE(b[13..15]), GetLE(b[15..19]), GetLE(b[19..23]))
  }

  function HeaderOf(r: Record): Header {
    Header(FrameSize(r), r.lsn, r.kind, |r.key|, |r.value|, Checksum(r.key + r.value))
  }

  /** The bytes of a record: header, key, value. */
  function Encoded(r: Record): (b: Bytes)
    ensures |b| == FrameSize(r)
  {
    HeaderBytes(HeaderOf(r)) + (r.key + r.value)
  }

  datatype ReadError = EndOfFile | UnexpectedEndOfFile | TornWrite | RecordTooSmall

  datatype Decoded = Decoded(record: Record, size: nat) | Failed(error: ReadError)

  /** The record at the front of the bytes, and how many bytes it takes. */
  function Decode(b: Bytes): (d: Decoded)
    ensures d.Decoded? ==> HEADER_SIZE <= d.size <= |b|
  {
    if b == [] then Failed(EndOfFile)
    else if |b| < HEADER_SIZE then Failed(UnexpectedEndOfFile)
    else
      var h := ParseHeader(b[..HEADER_SIZE]);
      if h.recLen < HEADER_SIZE then Failed(RecordTooSmall)
      else if h.recLen > MAX_FRAME_SIZE then Failed(TornWrite)
      else if h.recLen - HEADER_SIZE != h.keyLen + h.valLen then Failed(TornWrite)
      else if |b| < h.recLen then Failed(TornWrite)
      else DecodePayload(h, b[HEADER_SIZE..h.recLen])
  }

  function DecodePayload(h: Header, payload: Bytes): Decoded
    requires |payload| == h.keyLen + h.valLen
  {
    if Checksum(payload) != h.crc then Failed(TornWrite)
    else Decoded(Record(h.lsn, h.kind, payload[..h.keyLen], payload[h.keyLen..]), h.recLen)
  }

  // ---------- encoding and decoding are inverse ----------

  ghost predicate HeaderFits(h: Header) {
    h.recLen < TWO_TO_32 && h.lsn < TWO_TO_64 && h.keyLen < TWO_TO_16 && h.valLen < TWO_TO_32 && h.crc < TWO_TO_32
  }

  lemma HeaderRoundTrip(h: Header)
    requires HeaderFits(h)
    ensures ParseHeader(HeaderBytes(h)) == h
  {
    var b := HeaderBytes(h);
    assert b[0..4] == PutLE(h.recLen, 4);
    assert b[4..12] == PutLE(h.lsn, 8);
    assert b[13..15] == PutLE(h.keyLen, 2);
    assert b[15..19] == PutLE(h.valLen, 4);
    assert b[19..23] == PutLE(h.crc, 4);
    RoundTrip32(h.recLen);
    RoundTrip64(h.lsn);
    RoundTrip16(h.keyLen);
    RoundTrip32(h.valLen);
    RoundTrip32(h.crc);
  }

  lemma HeaderParseInverse(b: Bytes)
    requires |b| == HEADER_SIZE
    ensures HeaderBytes(ParseHeader(b)) == b && HeaderFits(ParseHeader(b))
  {
    GetPut(b[0..4]);
    GetPut(b[4..12]);
    GetPut(b[13..15]);
    GetPut(b[15..19]);
    GetPut(b[19..23]);
    Widths();
    assert b == b[0..4] + b[4..12] + [b[12]] + b[13..15] + b[15..19] + b[19..23];
  }

  /** A well-formed record reads back, whatever follows it. */
  lemma DecodeEncoded(r: Record, rest: Bytes)
    requires WellFormed(r)
    ensures Decode(Encoded(r) + rest) == Decoded(r, FrameSize(r))
  {
    var b, payload := Encoded(r) + rest, r.key + r.value;
    HeaderRoundTrip(HeaderOf(r));
    assert b[..HEADER_SIZE] == HeaderBytes(HeaderOf(r));
    assert b[HEADER_SIZE..FrameSize(r)] == payload;
    assert payload[..|r.key|] == r.key && payload[|r.key|..] == r.value;
  }

  /** The decoder accepts nothing but encodings of well-formed records. */
  lemma EncodedDecode(b: Bytes)
    requires Decode(b).Decoded?
    ensures WellFormed(Decode(b).record) && Decode(b).size == FrameSize(Decode(b).record)
    ensures b[..Decode(b).size] == Encoded(Decode(b).record)
  {
    var r, n := Decode(b).record, Decode(b).size;
    HeaderParseInverse(b[..HEADER_SIZE]);
    assert r.key + r.value == b[HEADER_SIZE..n];
    assert HeaderOf(r) == ParseHeader(b[..HEADER_SIZE]);
    assert b[..n] == b[..HEADER_SIZE] + b[HEADER_SIZE..n];
  }

  /** What a write cut off after n bytes reads as. */
  lemma DecodeTorn(r: Record, n: nat)
    requires WellFormed(r) && n < FrameSize(r)
    ensures Decode(Encoded(r)[..n])
         == Failed(if n == 0 then EndOfFile else if n < HEADER_SIZE then UnexpectedEndOfFile else TornWrite)
  {
    var b := Encoded(r)[..n];
    if n >= HEADER_SIZE {
      HeaderRoundTrip(HeaderOf(r));
      assert b[..HEADER_SIZE] == HeaderBytes(HeaderOf(r));
    }
  }

  // ---------- damage inside a record ----------

  /** A record whose key and value have been overwritten in place. */
  function Overwritten(r: Record, payload: Bytes): Bytes {
    HeaderBytes(HeaderOf(r)) + payload
  }

  /** Up to four bytes in a row that changed anywhere in the key and the value are found, and a torn write reported. */
  lemma DamageFound(r: Record, before: Bytes, x: Bytes, y: Bytes, after: Bytes, rest: Bytes)
    requires WellFormed(r) && r.key + r.value == before + x + after && |x| == |y| <= 4 && x != y
    ensures Decode(Overwritten(r, before + y + after) + rest) == Failed(TornWrite)
  {
    var b, payload := Overwritten(r, before + y + after) + rest, before + y + after;
    HeaderRoundTrip(HeaderOf(r));
    assert b[..HEADER_SIZE] == HeaderBytes(HeaderOf(r));
    assert b[HEADER_SIZE..FrameSize(r)] == payload;
    BurstChangesCrc(0, before, x, y, after);
  }

  /** The checksum does not cover the header: with another number or kind in it, the record reads as that one. */
  lemma HeaderDamageMissed(r: Record, lsn: nat, kind: byte, rest: Bytes)
    requires WellFormed(r) && lsn < TWO_TO_64
    ensures Decode(HeaderBytes(HeaderOf(r).(lsn := lsn, kind := kind)) + (r.key + r.value) + rest)
         == Decoded(r.(lsn := lsn, kind := kind), FrameSize(r))
  {
    DecodeEncoded(r.(lsn := lsn, kind := kind), rest);
  }

  // ---------- whole logs ----------

  function Log(records: seq<Record>): Bytes {
    FlatMap(Encoded, records)
  }

  ghost predicate AllWellFormed(records: seq<Record>) {
    forall i :: 0 <= i < |records| ==> WellFormed(records[i])
  }

  datatype Report = Report(records: seq<Record>, torn: bool)

  /** The records a replay applies, in order, and whether it stopped at a torn write. */
  function Replayed(b: Bytes): Report
    decreases |b|
  {
    match Decode(b)
    case Failed(e) => Report([], e != EndOfFile)
    case Decoded(r, n) => var rest := Replayed(b[n..]); Report([r] + rest.records, rest.torn)
  }

  /** A tail left by a write that was cut off: a proper prefix of an encoded record. */
  ghost predicate IsTail(tail: Bytes) {
    exists r, n: nat :: WellFormed(r) && n < FrameSize(r) && tail == Encoded(r)[..n]
  }

  lemma ReplayStep(r: Record, rest: Bytes)
    requires WellFormed(r)
    ensures Replayed(Encoded(r) + rest) == Report([r] + Replayed(rest).records, Replayed(rest).torn)
  {
    DecodeEncoded(r, rest);
    assert (Encoded(r) + rest)[FrameSize(r)..] == rest;
  }

  lemma {:induction false} ReplayThrough(records: seq<Record>, rest: Bytes)
    requires AllWellFormed(records)
    ensures Replayed(Log(records) + rest) == Report(records + Replayed(rest).records, Replayed(rest).torn)
    decreases |records|
  {
    if records == [] {
      assert Log(records) + rest == rest && records + Replayed(rest).records == Replayed(rest).records;
    } else {
      var r, later := records[0], records[1..];
      FlatMapFirst(Encoded, records);
      ReplayThrough(later, rest);
      ReplayStep(r, Log(later) + rest);
      Regroup(Encoded(r), Log(later), rest);
      assert Log(records) + rest == Encoded(r) + (Log(later) + rest);
      Regroup([r], later, Replayed(rest).records);
      assert [r] + later == records;
    }
  }

  /** A replay applies exactly the complete records, and reports a torn write exactly when bytes are left over. */
  lemma ReplayLog(records: seq<Record>, tail: Bytes)
    requires AllWellFormed(records) && IsTail(tail)
    ensures Replayed(Log(records) + tail) == Report(records, tail != [])
  {
    ReplayTail(tail);
    ReplayThrough(records, tail);
    assert records + [] == records;
  }

  lemma ReplayTail(tail: Bytes)
    requires IsTail(tail)
    ensures Replayed(tail) == Report([], tail != [])
  {
    var r, n: nat :| WellFormed(r) && n < FrameSize(r) && tail == Encoded(r)[..n];
    DecodeTorn(r, n);
  }

  lemma NothingIsTail()
    ensures IsTail([])
  {
    var r := Record(0, OP_PUT, [], []);
    assert WellFormed(r) && 0 < FrameSize(r) && [] == Encoded(r)[..0];
  }

  /** A replay stops at damage like this: it applies the records before it and none behind it. */
  lemma DamagedLog(records: seq<Record>, r: Record, before: Bytes, x: Bytes, y: Bytes, after: Bytes, rest: Bytes)
    requires AllWellFormed(records) && WellFormed(r)
    requires r.key + r.value == before + x + after && |x| == |y| <= 4 && x != y
    ensures Replayed(Log(records) + (Overwritten(r, before + y + after) + rest)) == Report(records, true)
  {
    DamageFound(r, before, x, y, after, rest);
    ReplayThrough(records, Overwritten(r, before + y + after) + rest);
    assert records + [] == records;
  }

  lemma LogAppend(records: seq<Record>, r: Record)
    ensures Log(records + [r]) == Log(records) + Encoded(r)
  {
    FlatMapConcat(Encoded, records, [r]);
    FlatMapOne(Encoded, r);
  }

  // ---------- writing after a torn tail ----------

  lemma {:induction false} ReplayedFits(b: Bytes, r: Record)
    requires r in Replayed(b).records
    ensures FrameSize(r) <= |b|
    decreases |b|
  {
    var d := Decode(b);
    EncodedDecode(b);
    if r != d.record {
      ReplayedFits(b[d.size..], r);
    }
  }

  /** The first byte of a record is the low byte of its length. */
  lemma FirstByte(r: Record)
    ensures Encoded(r)[0] == FrameSize(r) % 256
  {
  }

  /** Reading from a torn tail on, the first record that decodes ends after the tail. */
  lemma PastTail(tail: Bytes, more: Bytes)
    requires IsTail(tail) && Decode(tail + more).Decoded?
    ensures Decode(tail + more).size > |tail|
  {
    var r, n: nat :| WellFormed(r) && n < FrameSize(r) && tail == Encoded(r)[..n];
    if n >= HEADER_SIZE {
      HeaderRoundTrip(HeaderOf(r));
      assert (tail + more)[..HEADER_SIZE] == HeaderBytes(HeaderOf(r));
    }
  }

  /** A torn tail is not cut off when the log is reopened, so it swallows the front of the next record. */
  lemma TailHidesNext(tail: Bytes, r: Record)
    requires IsTail(tail) && tail != [] && tail[0] != FrameSize(r) % 256
    ensures r !in Replayed(tail + Encoded(r)).records
  {
    var b := tail + Encoded(r);
    var d := Decode(b);
    if d.Decoded? {
      EncodedDecode(b);
      FirstByte(r);
      PastTail(tail, Encoded(r));
      assert b[..d.size][0] == tail[0];
      if r in Replayed(b[d.size..]).records {
        ReplayedFits(b[d.size..], r);
      }
    }
  }

  /** A record the engine logs for a put. */
  ghost predicate IsPut(r: Record) {
    WellFormed(r) && r.kind == OP_PUT && r.lsn >= 1 && |r.key| == 8
  }

  ghost predicate AllPuts(records: seq<Record>) {
    forall i :: 0 <= i < |records| ==> IsPut(records[i])
  }

  /** A replay of the log with more records behind the tail gives all of them. */
  ghost predicate Survive(records: seq<Record>, tail: Bytes, more: seq<Record>) {
    Replayed(Log(records) + tail + Log(more)).records == records + more
  }

  lemma CleanAppendsSurvive(records: seq<Record>, more: seq<Record>)
    requires AllWellFormed(records) && AllWellFormed(more)
    ensures Survive(records, [], more)
  {
    assert Log(records) + [] + Log(more) == Log(records) + Log(more) && Log(more) + [] == Log(more);
    ReplayThrough(records, Log(more));
    NothingIsTail();
    ReplayLog(more, []);
  }

  /** Behind a torn tail, whatever number is next, some put under that number is lost. */
  lemma HiddenPut(records: seq<Record>, tail: Bytes, n: nat) returns (r: Record)
    requires AllWellFormed(records) && IsTail(tail) && tail != [] && 1 <= n < TWO_TO_64
    ensures IsPut(r) && r.lsn == n && !Survive(records, tail, [r])
  {
    var key := seq(8, i => 0 as byte);
    var r0, r1 := Record(n, OP_PUT, key, []), Record(n, OP_PUT, key, [0]);
    r := if tail[0] == FrameSize(r0) % 256 then r1 else r0;
    TailHidesNext(tail, r);
    FlatMapOne(Encoded, r);
    Regroup(Log(records), tail, Log([r]));
    ReplayThrough(records, tail + Log([r]));
    var rest := Replayed(tail + Log([r])).records;
    assert rest == [r] ==> r in rest;
    SameFront(records, rest, [r]);
  }

  lemma SameFront<T>(a: seq<T>, b: seq<T>, c: seq<T>)
    ensures a + b == a + c <==> b == c
  {
    assert (a + b)[|a|..] == b && (a + c)[|a|..] == c;
  }

  /** Records appended to a log survive every replay exactly when the log ended at a record boundary: then all of them
      do, and otherwise not even the puts of the engine do. */
  lemma AppendsSurvive(records: seq<Record>, tail: Bytes)
    requires AllWellFormed(records) && IsTail(tail)
    ensures tail == [] <==> forall more :: AllPuts(more) ==> Survive(records, tail, more)
    ensures tail == [] <==> forall more :: AllWellFormed(more) ==> Survive(records, tail, more)
  {
    if tail == [] {
      forall more | AllWellFormed(more)
        ensures Survive(records, tail, more)
      {
        CleanAppendsSurvive(records, more);
      }
    } else {
      var r := HiddenPut(records, tail, 1);
      assert AllPuts([r]) && AllWellFormed([r]);
    }
  }
}
