/** Writing, scanning and rotating the log file. */
module WalLogs {
  import opened Types
  import opened Buffers
  import opened Codec
  import opened Crc32
  import opened Sequences
  import opened WalRecords

  /** The header without its checksum. */
  function FieldBytes(r: Record): (b: Bytes)
    ensures |b| == HEADER_SIZE - 4
  {
    PutLE(FrameSize(r), 4) + PutLE(r.lsn, 8) + [r.kind] + PutLE(|r.key|, 2) + PutLE(|r.value|, 4)
  }

  method PutFields(buf: array<byte>, r: Record) returns (o: nat)
    requires buf.Length == FrameSize(r)
    modifies buf
    ensures o == HEADER_SIZE - 4 && buf[..o] == FieldBytes(r)
  {
    o := PutAt(buf, 0, PutLE(FrameSize(r), 4));
    o := PutAt(buf, o, PutLE(r.lsn, 8));
    o := PutAt(buf, o, [r.kind]);
    o := PutAt(buf, o, PutLE(|r.key|, 2));
    o := PutAt(buf, o, PutLE(|r.value|, 4));
  }

  lemma EncodedIs(r: Record)
    ensures Encoded(r) == FieldBytes(r) + PutLE(Checksum(r.key + r.value), 4) + (r.key + r.value)
  {
  }

  /** Fills the frame field by field; the checksum goes in last. */
  method EncodeRecord(r: Record) returns (frame: Bytes)
    ensures frame == Encoded(r)
  {
    var payload := r.key + r.value;
    var buf := new byte[FrameSize(r)](_ => 0);
    var o := PutFields(buf, r);
    WriteBytes(buf, HEADER_SIZE, payload);
    assert buf[HEADER_SIZE..] == payload && buf[..o] == FieldBytes(r);
    var crc := Checksum(buf[HEADER_SIZE..]);
    WriteBytes(buf, o, PutLE(crc, 4));
    EncodedIs(r);
    return buf[..];
  }

  datatype ReadResult = Read(record: Record) | Stopped(error: ReadError)

  /** Reads one record from the file. */
  method DecodeRecord(reader: Reader) returns (r: ReadResult)
    requires reader.Valid()
    modifies reader
    ensures reader.Valid()
    ensures match Decode(old(reader.Rest()))
            case Failed(e) => r == Stopped(e)
            case Decoded(record, size) => r == Read(record) && reader.Rest() == old(reader.Rest())[size..]
  {
    ghost var b := reader.Rest();
    var header, short := reader.ReadFull(HEADER_SIZE);
    if short.Some? {
      return Stopped(if short.value == Nothing then EndOfFile else UnexpectedEndOfFile);
    }
    var h := ParseHeader(header);
    if h.recLen < HEADER_SIZE {
      return Stopped(RecordTooSmall);
    }
    if h.recLen > MAX_FRAME_SIZE {
      return Stopped(TornWrite);
    }
    if h.recLen - HEADER_SIZE != h.keyLen + h.valLen {
      return Stopped(TornWrite);
    }
    var payload;
    payload, short := reader.ReadFull(h.recLen - HEADER_SIZE);
    if short.Some? {
      return Stopped(TornWrite);
    }
    assert payload == b[HEADER_SIZE..h.recLen];
    if Checksum(payload) != h.crc {
      return Stopped(TornWrite);
    }
    assert b[HEADER_SIZE..][h.recLen - HEADER_SIZE..] == b[h.recLen..];
    return Read(Record(h.lsn, h.kind, payload[..h.keyLen], payload[h.keyLen..]));
  }

  /** The highest number among the records. */
  function Highest(records: seq<Record>): nat {
    if records == [] then 0 else Max(records[0].lsn, Highest(records[1..]))
  }

  function Then(done: seq<Record>, rest: Report): Report {
    Report(done + rest.records, rest.torn)
  }

  lemma ReplayedOne(done: seq<Record>, b: Bytes)
    requires Decode(b).Decoded?
    ensures Then(done, Replayed(b)) == Then(done + [Decode(b).record], Replayed(b[Decode(b).size..]))
  {
  }

  lemma {:induction false} HighestAppend(records: seq<Record>, r: Record)
    ensures Highest(records + [r]) == Max(Highest(records), r.lsn)
    decreases |records|
  {
    if records == [] {
      assert [] + [r] == [r] && [r][1..] == [];
    } else {
      HighestAppend(records[1..], r);
      assert (records + [r])[1..] == records[1..] + [r];
    }
  }

  /** How reading the file comes to a stop. */
  function Stop(b: Bytes): ReadError
    decreases |b|
  {
    match Decode(b)
    case Failed(e) => e
    case Decoded(_, n) => Stop(b[n..])
  }

  /** What is left of a scan: the report it will end with, and why it will stop. */
  function Outlook(records: seq<Record>, b: Bytes): (Report, ReadError) {
    (Then(records, Replayed(b)), Stop(b))
  }

  lemma ScanStep(records: seq<Record>, b: Bytes)
    requires Decode(b).Decoded?
    ensures Outlook(records, b) == Outlook(records + [Decode(b).record], b[Decode(b).size..])
    ensures Highest(records + [Decode(b).record]) == Max(Highest(records), Decode(b).record.lsn)
  {
    ReplayedOne(records, b);
    HighestAppend(records, Decode(b).record);
  }

  lemma ScanStart(file: Bytes)
    ensures Outlook([], file) == (Replayed(file), Stop(file))
  {
    assert [] + Replayed(file).records == Replayed(file).records;
  }

  lemma ScanEnd(records: seq<Record>, b: Bytes)
    requires Decode(b).Failed?
    ensures Outlook(records, b) == (Report(records, Decode(b).error != EndOfFile), Decode(b).error)
  {
    assert records + [] == records;
  }

  /** One step of a scan that has met records so far. */
  method ScanNext(reader: Reader, ghost records: seq<Record>) returns (r: ReadResult)
    requires reader.Valid()
    modifies reader
    ensures reader.Valid()
    ensures r.Read? ==> Outlook(records + [r.record], reader.Rest()) == old(Outlook(records, reader.Rest()))
    ensures r.Read? ==>
      |reader.Rest()| < old(|reader.Rest()|) && Highest(records + [r.record]) == Max(Highest(records), r.record.lsn)
    ensures r.Stopped? ==> (Report(records, r.error != EndOfFile), r.error) == old(Outlook(records, reader.Rest()))
  {
    ghost var b := reader.Rest();
    r := DecodeRecord(reader);
    if r.Read? {
      ScanStep(records, b);
    } else {
      ScanEnd(records, b);
    }
  }

  /** How many records are handed over before the handler refuses one. */
  function Handled(records: seq<Record>, refuses: Record -> bool): (n: nat)
    ensures n <= |records|
    decreases |records|
  {
    if records == [] || refuses(records[0]) then 0 else 1 + Handled(records[1..], refuses)
  }

  lemma {:induction false} HandledIs(done: seq<Record>, rest: seq<Record>, refuses: Record -> bool)
    requires forall i :: 0 <= i < |done| ==> !refuses(done[i])
    requires rest == [] || refuses(rest[0])
    ensures Handled(done + rest, refuses) == |done| && (done + rest)[..|done|] == done
    decreases |done|
  {
    if done == [] {
      assert done + rest == rest;
    } else {
      assert (done + rest)[1..] == done[1..] + rest;
      HandledIs(done[1..], rest, refuses);
    }
  }

  /** Hands over the records up to the end of the file, the first one that is not whole, or the first one refused. */
  method Replay(file: Bytes, refuses: Record -> bool)
    returns (records: seq<Record>, lastLSN: nat, torn: bool, refused: bool)
    ensures var all := Replayed(file).records; var n := Handled(all, refuses);
            records == all[..n] && (refused <==> n < |all|)
    ensures lastLSN == Highest(records) && torn == (Replayed(file).torn && !refused)
  {
    var reader := new Reader(file);
    ghost var outlook := Outlook([], reader.Rest());
    records, lastLSN := [], 0;
    ScanStart(file);
    while true
      invariant reader.Valid() && fresh(reader)
      invariant outlook == Outlook(records, reader.Rest()) && lastLSN == Highest(records)
      invariant forall i :: 0 <= i < |records| ==> !refuses(records[i])
      decreases |reader.Rest()|
    {
      var r := ScanNext(reader, records);
      match r
      case Stopped(e) =>
        HandledIs(records, [], refuses);
        assert records + [] == records;
        return records, lastLSN, e != EndOfFile, false;
      case Read(record) =>
        if refuses(record) {
          ghost var rest := [record] + Replayed(reader.Rest()).records;
          HandledIs(records, rest, refuses);
          Regroup(records, [record], Replayed(reader.Rest()).records);
          return records, lastLSN, false, true;
        }
        records, lastLSN := records + [record], if record.lsn > lastLSN then record.lsn else lastLSN;
    }
  }

  /** The highest number in the file; a header that claims less than its own size is an error here. */
  method FindHighestLSN(file: Bytes) returns (highest: Option<nat>)
    ensures highest == if Stop(file) == RecordTooSmall then None else Some(Highest(Replayed(file).records))
  {
    var reader := new Reader(file);
    var max := 0;
    ghost var records: seq<Record> := [];
    ghost var outlook := Outlook(records, reader.Rest());
    ScanStart(file);
    while true
      invariant reader.Valid() && fresh(reader)
      invariant outlook == Outlook(records, reader.Rest()) && max == Highest(records)
      decreases |reader.Rest()|
    {
      var r := ScanNext(reader, records);
      match r
      case Stopped(e) =>
        return if e == RecordTooSmall then None else Some(max);
      case Read(record) =>
        records := records + [record];
        max := if record.lsn > max then record.lsn else max;
    }
  }

  /** A log with a torn tail is never refused when it is opened. */
  lemma {:induction false} LogStops(records: seq<Record>, tail: Bytes)
    requires AllWellFormed(records) && IsTail(tail)
    ensures Stop(Log(records) + tail) != RecordTooSmall
    decreases |records|
  {
    if records == [] {
      var r, n: nat :| WellFormed(r) && n < FrameSize(r) && tail == Encoded(r)[..n];
      DecodeTorn(r, n);
      assert Log(records) + tail == tail;
    } else {
      LogStops(records[1..], tail);
      FlatMapFirst(Encoded, records);
      Regroup(Encoded(records[0]), Log(records[1..]), tail);
      StopStep(records[0], Log(records[1..]) + tail);
    }
  }

  lemma StopStep(r: Record, rest: Bytes)
    requires WellFormed(r)
    ensures Stop(Encoded(r) + rest) == Stop(rest)
  {
    DecodeEncoded(r, rest);
    assert (Encoded(r) + rest)[FrameSize(r)..] == rest;
  }

  // ---------- the log file ----------

  class WAL {
    var file: Bytes
    /** The previous generation, if there has been a rotation. */
    var bak: Option<Bytes>
    var currentLSN: nat

    /** Opens existing files; when the active one holds no record, the archive tells where numbering stopped. */
    constructor (file: Bytes, bak: Option<Bytes>, lastLSN: nat)
      ensures this.file == file && this.bak == bak && currentLSN == lastLSN
    {
      this.file, this.bak, currentLSN := file, bak, lastLSN;
    }

    /** Appends a record under the next number, unless its frame is too large. */
    method Write(kind: byte, key: Bytes, value: Bytes) returns (lsn: Option<nat>)
      modifies this
      ensures bak == old(bak)
      ensures var r := Record(old(currentLSN) + 1, kind, key, value);
              if FrameSize(r) > MAX_FRAME_SIZE then lsn == None && file == old(file) && currentLSN == old(currentLSN)
              else lsn == Some(r.lsn) && file == old(file) + Encoded(r) && currentLSN == r.lsn
    {
      currentLSN := currentLSN + 1;
      var frame := EncodeRecord(Record(currentLSN, kind, key, value));
      if |frame| > MAX_FRAME_SIZE {
        currentLSN := currentLSN - 1;
        return None;
      }
      file := file + frame;
      return Some(currentLSN);
    }

    method SetCurrentLSN(target: nat)
      modifies `currentLSN
      ensures currentLSN == Max(old(currentLSN), target)
    {
      if target > currentLSN {
        currentLSN := target;
      }
    }

    method RemoveArchive()
      modifies `bak
      ensures bak == None
    {
      bak := None;
    }

    /** Rotation: the log becomes the archive, replacing the one before it, and a fresh log begins. */
    method Checkpoint()
      modifies this
      ensures bak == Some(old(file)) && file == [] && currentLSN == old(currentLSN)
    {
      RemoveArchive();
      bak, file := Some(file), [];
    }
  }

  /** Where numbering resumes when these files are opened, or nothing if the log is refused. */
  function ResumeLSN(file: Bytes, bak: Option<Bytes>): Option<nat> {
    if Stop(file) == RecordTooSmall then None
    else
      var last := Highest(Replayed(file).records);
      if last == 0 && bak.Some? && Stop(bak.value) != RecordTooSmall then
        Some(Max(last, Highest(Replayed(bak.value).records)))
      else Some(last)
  }

  method OpenWAL(file: Bytes, bak: Option<Bytes>) returns (wal: Option<WAL>)
    ensures wal.Some? <==> ResumeLSN(file, bak).Some?
    ensures wal.Some? ==> fresh(wal.value) && wal.value.file == file && wal.value.bak == bak
    ensures wal.Some? ==> Some(wal.value.currentLSN) == ResumeLSN(file, bak)
  {
    var found := FindHighestLSN(file);
    if found.None? {
      return None;
    }
    var last := found.value;
    if last == 0 && bak.Some? {
      var archived := FindHighestLSN(bak.value);
      if archived.Some? && archived.value > last {
        last := archived.value;
      }
    }
    var w := new WAL(file, bak, last);
    return Some(w);
  }
}
