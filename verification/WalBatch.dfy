/** The payload of a batch record. */
module WalBatches {
  import opened Types
  import opened Buffers
  import opened Codec
  import opened Sequences
  import WalRecords

  const MAX_BATCH_BYTES := 0x80_0000
  const BATCH_OP_OVERHEAD := 15

  datatype BatchOp = BatchOp(kind: byte, key: Bytes, value: Bytes)

  ghost predicate OpFits(op: BatchOp) {
    |op.key| < TWO_TO_16 && |op.value| < TWO_TO_32
  }

  ghost predicate AllFit(ops: seq<BatchOp>) {
    |ops| < TWO_TO_32 && forall i :: 0 <= i < |ops| ==> OpFits(ops[i])
  }

  function OpBytes(op: BatchOp): (b: Bytes)
    ensures |b| == 7 + |op.key| + |op.value|
  {
    [op.kind] + PutLE(|op.key|, 2) + op.key + PutLE(|op.value|, 4) + op.value
  }

  function OpsBytes(ops: seq<BatchOp>): Bytes {
    FlatMap(OpBytes, ops)
  }

  /** The encoded batch; an empty batch is an error. */
  function EncodedBatch(ops: seq<BatchOp>): Option<Bytes> {
    if ops == [] then None else Some(PutLE(|ops|, 4) + OpsBytes(ops))
  }

  datatype OpRead = OpRead(op: BatchOp, size: nat)

  /** The operation at the front of the bytes. */
  function ReadOp(b: Bytes): (r: Option<OpRead>)
    ensures r.Some? ==> 7 <= r.value.size <= |b| && |r.value.op.value| < r.value.size
  {
    if |b| < 7 then None
    else
      var kLen := GetLE(b[1..3]);
      if |b| < 3 + kLen + 4 then None
      else
        var vLen := GetLE(b[3 + kLen..7 + kLen]);
        if |b| < 7 + kLen + vLen then None
        else Some(OpRead(BatchOp(b[0], b[3..3 + kLen], b[7 + kLen..7 + kLen + vLen]), 7 + kLen + vLen))
  }

  /** The first n operations of the bytes. */
  function ReadOps(b: Bytes, n: nat): (r: Option<seq<BatchOp>>)
    ensures r.Some? ==> forall i :: 0 <= i < |r.value| ==> |r.value[i].value| < |b|
    decreases n
  {
    if n == 0 then Some([])
    else
      match ReadOp(b)
      case None => None
      case Some(first) =>
        match ReadOps(b[first.size..], n - 1)
        case None => None
        case Some(rest) => Some([first.op] + rest)
  }

  function DecodedBatch(b: Bytes): (r: Option<seq<BatchOp>>)
    ensures r.Some? ==> forall i :: 0 <= i < |r.value| ==> |r.value[i].value| < |b|
  {
    if |b| < 4 then None else ReadOps(b[4..], GetLE(b[..4]))
  }

  // ---------- encoding and decoding ----------

  lemma ReadOpBytes(op: BatchOp, rest: Bytes)
    requires OpFits(op)
    ensures ReadOp(OpBytes(op) + rest) == Some(OpRead(op, |OpBytes(op)|))
  {
    var b, k := OpBytes(op) + rest, |op.key|;
    assert b[1..3] == PutLE(k, 2);
    RoundTrip16(k);
    assert b[3 + k..7 + k] == PutLE(|op.value|, 4);
    RoundTrip32(|op.value|);
    assert b[3..3 + k] == op.key && b[7 + k..7 + k + |op.value|] == op.value;
  }

  /** Cut anywhere, an operation no longer reads. */
  lemma ReadOpTorn(op: BatchOp, n: nat)
    requires OpFits(op) && n < |OpBytes(op)|
    ensures ReadOp(OpBytes(op)[..n]) == None
  {
    var whole, k := OpBytes(op), |op.key|;
    var b := whole[..n];
    assert whole[1..3] == PutLE(k, 2) && whole[3 + k..7 + k] == PutLE(|op.value|, 4);
    if n >= 7 {
      assert b[1..3] == whole[1..3];
      RoundTrip16(k);
      if n >= 7 + k {
        assert b[3 + k..7 + k] == whole[3 + k..7 + k];
        RoundTrip32(|op.value|);
      }
    }
  }

  lemma ReadOpsStep(op: BatchOp, later: Bytes, n: nat)
    requires OpFits(op)
    ensures ReadOps(OpBytes(op) + later, n + 1)
         == match ReadOps(later, n) case None => None case Some(rest) => Some([op] + rest)
  {
    ReadOpBytes(op, later);
    assert (OpBytes(op) + later)[|OpBytes(op)|..] == later;
  }

  lemma {:induction false} ReadOpsBytes(ops: seq<BatchOp>, rest: Bytes)
    requires forall i :: 0 <= i < |ops| ==> OpFits(ops[i])
    ensures ReadOps(OpsBytes(ops) + rest, |ops|) == Some(ops)
    decreases |ops|
  {
    if ops != [] {
      FlatMapFirst(OpBytes, ops);
      ReadOpsBytes(ops[1..], rest);
      ReadOpsStep(ops[0], OpsBytes(ops[1..]) + rest, |ops| - 1);
      Regroup(OpBytes(ops[0]), OpsBytes(ops[1..]), rest);
      HeadTail(ops);
    }
  }

  lemma ReadOpsTornHere(op: BatchOp, n: nat, count: nat)
    requires OpFits(op) && n < |OpBytes(op)| && count > 0
    ensures ReadOps(OpBytes(op)[..n], count) == None
  {
    ReadOpTorn(op, n);
  }

  lemma ReadOpsTornLater(op: BatchOp, later: Bytes, count: nat)
    requires OpFits(op) && ReadOps(later, count) == None
    ensures ReadOps(OpBytes(op) + later, count + 1) == None
  {
    ReadOpsStep(op, later, count);
  }

  lemma TakeConcat<T>(a: seq<T>, b: seq<T>, n: nat)
    requires n <= |a| + |b|
    ensures (a + b)[..n] == if n < |a| then a[..n] else a + b[..n - |a|]
  {
  }

  lemma {:induction false} ReadOpsTorn(ops: seq<BatchOp>, n: nat)
    requires forall i :: 0 <= i < |ops| ==> OpFits(ops[i])
    requires n < |OpsBytes(ops)|
    ensures ReadOps(OpsBytes(ops)[..n], |ops|) == None
    decreases |ops|
  {
    var op, rest := ops[0], ops[1..];
    FlatMapFirst(OpBytes, ops);
    TakeConcat(OpBytes(op), OpsBytes(rest), n);
    if n < |OpBytes(op)| {
      ReadOpsTornHere(op, n, |ops|);
    } else {
      ReadOpsTorn(rest, n - |OpBytes(op)|);
      ReadOpsTornLater(op, OpsBytes(rest)[..n - |OpBytes(op)|], |rest|);
    }
  }

  /** A batch decodes to the operations it was encoded from. */
  lemma BatchRoundTrip(ops: seq<BatchOp>)
    requires AllFit(ops) && ops != []
    ensures DecodedBatch(EncodedBatch(ops).value) == Some(ops)
  {
    var b := EncodedBatch(ops).value;
    assert b[..4] == PutLE(|ops|, 4) && b[4..] == OpsBytes(ops) + [];
    RoundTrip32(|ops|);
    ReadOpsBytes(ops, []);
  }

  /** No proper prefix of an encoded batch decodes. */
  lemma BatchTorn(ops: seq<BatchOp>, n: nat)
    requires AllFit(ops) && ops != [] && n < |EncodedBatch(ops).value|
    ensures DecodedBatch(EncodedBatch(ops).value[..n]) == None
  {
    var b := EncodedBatch(ops).value;
    if n >= 4 {
      assert b[..n][..4] == PutLE(|ops|, 4) && b[..n][4..] == OpsBytes(ops)[..n - 4];
      RoundTrip32(|ops|);
      ReadOpsTorn(ops, n - 4);
    }
  }

  // ---------- filling and parsing the buffer ----------

  lemma OpsSplit(ops: seq<BatchOp>, i: nat)
    requires i < |ops|
    ensures OpsBytes(ops[..i + 1]) == OpsBytes(ops[..i]) + OpBytes(ops[i])
    ensures |OpsBytes(ops[..i + 1])| <= |OpsBytes(ops)|
  {
    assert ops[..i + 1] == ops[..i] + [ops[i]] && ops == ops[..i + 1] + ops[i + 1..];
    FlatMapConcat(OpBytes, ops[..i], [ops[i]]);
    FlatMapOne(OpBytes, ops[i]);
    FlatMapConcat(OpBytes, ops[..i + 1], ops[i + 1..]);
  }

  method TotalLength(ops: seq<BatchOp>) returns (total: nat)
    ensures total == 4 + |OpsBytes(ops)|
  {
    total := 4;
    for i := 0 to |ops|
      invariant total == 4 + |OpsBytes(ops[..i])|
    {
      OpsSplit(ops, i);
      total := total + 1 + 2 + |ops[i].key| + 4 + |ops[i].value|;
    }
    assert ops[..|ops|] == ops;
  }

  method PutOp(buf: array<byte>, start: nat, op: BatchOp) returns (offset: nat)
    requires start + |OpBytes(op)| <= buf.Length
    modifies buf
    ensures offset == start + |OpBytes(op)| && buf[..offset] == old(buf[..start]) + OpBytes(op)
  {
    offset := PutAt(buf, start, [op.kind]);
    offset := PutAt(buf, offset, PutLE(|op.key|, 2));
    offset := PutAt(buf, offset, op.key);
    offset := PutAt(buf, offset, PutLE(|op.value|, 4));
    offset := PutAt(buf, offset, op.value);
  }

  method EncodeBatchPayload(ops: seq<BatchOp>) returns (payload: Option<Bytes>)
    ensures payload == EncodedBatch(ops)
  {
    if ops == [] {
      return None;
    }
    var total := TotalLength(ops);
    var buf := new byte[total](_ => 0);
    var offset := PutAt(buf, 0, PutLE(|ops|, 4));
    for i := 0 to |ops|
      invariant offset == 4 + |OpsBytes(ops[..i])| <= total
      invariant buf[..offset] == PutLE(|ops|, 4) + OpsBytes(ops[..i])
    {
      OpsSplit(ops, i);
      offset := PutOp(buf, offset, ops[i]);
    }
    assert ops[..|ops|] == ops && buf[..offset] == buf[..];
    return Some(buf[..]);
  }

  function Before(done: seq<BatchOp>, rest: Option<seq<BatchOp>>): Option<seq<BatchOp>> {
    match rest case None => None case Some(ops) => Some(done + ops)
  }

  lemma ReadOpsOne(done: seq<BatchOp>, b: Bytes, n: nat)
    requires n > 0 && ReadOp(b).Some?
    ensures var r := ReadOp(b).value;
            Before(done, ReadOps(b, n)) == Before(done + [r.op], ReadOps(b[r.size..], n - 1))
  {
    var r := ReadOp(b).value;
    var rest := ReadOps(b[r.size..], n - 1);
    if rest.Some? {
      Regroup(done, [r.op], rest.value);
    }
  }

  lemma BeforeNothing(rest: Option<seq<BatchOp>>, done: seq<BatchOp>)
    ensures Before([], rest) == rest && Before(done, Some([])) == Some(done)
  {
    if rest.Some? {
      assert [] + rest.value == rest.value;
    }
    assert done + [] == done;
  }

  /** A part of the bytes from offset on, taken from the bytes themselves. */
  lemma Shift(data: Bytes, offset: nat, lo: nat, hi: nat)
    requires lo <= hi && offset + hi <= |data|
    ensures data[offset..][lo..hi] == data[offset + lo..offset + hi]
  {
  }

  method ReadOpAt(data: Bytes, start: nat) returns (r: Option<OpRead>)
    requires start <= |data|
    ensures r == ReadOp(data[start..])
  {
    if start + 7 > |data| {
      return None;
    }
    Shift(data, start, 1, 3);
    var kLen := GetLE(data[start + 1..start + 3]);
    if start + 3 + kLen + 4 > |data| {
      return None;
    }
    Shift(data, start, 3, 3 + kLen);
    Shift(data, start, 3 + kLen, 7 + kLen);
    var vLen := GetLE(data[start + 3 + kLen..start + 7 + kLen]);
    if start + 7 + kLen + vLen > |data| {
      return None;
    }
    Shift(data, start, 7 + kLen, 7 + kLen + vLen);
    var value := data[start + 7 + kLen..start + 7 + kLen + vLen];
    return Some(OpRead(BatchOp(data[start], data[start + 3..start + 3 + kLen], value), 7 + kLen + vLen));
  }

  /** What a decoder that has read some operations will return: those, and n more from offset on. */
  function Outlook(done: seq<BatchOp>, data: Bytes, offset: nat, n: nat): Option<seq<BatchOp>>
    requires offset <= |data|
  {
    Before(done, ReadOps(data[offset..], n))
  }

  lemma OutlookStep(done: seq<BatchOp>, data: Bytes, offset: nat, n: nat, r: OpRead)
    requires n > 0 && offset <= |data| && ReadOp(data[offset..]) == Some(r)
    ensures offset + r.size <= |data|
    ensures Outlook(done, data, offset, n) == Outlook(done + [r.op], data, offset + r.size, n - 1)
  {
    ReadOpsOne(done, data[offset..], n);
    DropTwice(data, offset, r.size);
  }

  lemma OutlookEnds(done: seq<BatchOp>, data: Bytes, offset: nat, n: nat)
    requires offset <= |data|
    ensures Outlook([], data, offset, n) == ReadOps(data[offset..], n)
    ensures n == 0 ==> Outlook(done, data, offset, n) == Some(done)
    ensures n > 0 && ReadOp(data[offset..]).None? ==> Outlook(done, data, offset, n) == None
  {
    BeforeNothing(ReadOps(data[offset..], n), done);
  }

  method ReadAllOps(data: Bytes, start: nat, count: nat) returns (ops: Option<seq<BatchOp>>)
    requires start <= |data|
    ensures ops == ReadOps(data[start..], count)
  {
    var done: seq<BatchOp>, offset: nat, left: nat := [], start, count;
    OutlookEnds([], data, start, count);
    while left > 0
      invariant offset <= |data| && Outlook([], data, start, count) == Outlook(done, data, offset, left)
    {
      var r := ReadOpAt(data, offset);
      if r.None? {
        OutlookEnds(done, data, offset, left);
        return None;
      }
      OutlookStep(done, data, offset, left, r.value);
      done, offset, left := done + [r.value.op], offset + r.value.size, left - 1;
    }
    OutlookEnds(done, data, offset, left);
    return Some(done);
  }

  method DecodeBatchPayload(data: Bytes) returns (ops: Option<seq<BatchOp>>)
    ensures ops == DecodedBatch(data)
  {
    if |data| < 4 {
      return None;
    }
    ops := ReadAllOps(data, 4, GetLE(data[..4]));
  }

  lemma DropTwice(data: Bytes, m: nat, n: nat)
    requires m + n <= |data|
    ensures data[m..][n..] == data[m + n..]
  {
  }

  // ---------- the size limit ----------

  datatype ApiOp = ApiPut(key: uint64, value: Bytes) | ApiDelete(key: uint64, value: Bytes)

  /** How the engine logs an operation; a delete carries along whatever value the caller set. */
  function Logged(op: ApiOp): BatchOp {
    BatchOp(if op.ApiPut? then WalRecords.OP_PUT else WalRecords.OP_DELETE, PutLE(op.key, 8), op.value)
  }

  function LoggedAll(ops: seq<ApiOp>): (r: seq<BatchOp>)
    ensures |r| == |ops|
  {
    seq(|ops|, i requires 0 <= i < |ops| => Logged(ops[i]))
  }

  /** checkValueSizes adds this up: the framing of every operation, and the values of puts only. */
  function CheckedSize(ops: seq<ApiOp>): nat {
    if ops == [] then 4
    else CheckedSize(ops[..|ops| - 1]) + BATCH_OP_OVERHEAD +
         (if ops[|ops| - 1].ApiPut? then |ops[|ops| - 1].value| else 0)
  }

  function DeletedBytes(ops: seq<ApiOp>): nat {
    if ops == [] then 0
    else DeletedBytes(ops[..|ops| - 1]) + (if ops[|ops| - 1].ApiPut? then 0 else |ops[|ops| - 1].value|)
  }

  datatype SizeError = RecordTooLarge | BatchTooLarge

  /** checkValueSizes, one operation after the other. */
  method CheckValueSizes(ops: seq<ApiOp>) returns (e: Option<SizeError>)
    ensures e == Some(RecordTooLarge) <==>
      exists i :: 0 <= i < |ops| && ops[i].ApiPut? && |ops[i].value| > MAX_VALUE_SIZE
    ensures e == Some(BatchTooLarge) ==> CheckedSize(ops) > MAX_BATCH_BYTES
    ensures e == None ==> CheckedSize(ops) <= MAX_BATCH_BYTES
  {
    var total := 4;
    for i := 0 to |ops|
      invariant total == CheckedSize(ops[..i])
      invariant forall j :: 0 <= j < i && ops[j].ApiPut? ==> |ops[j].value| <= MAX_VALUE_SIZE
    {
      assert ops[..i + 1][..i] == ops[..i];
      total := total + BATCH_OP_OVERHEAD;
      if ops[i].ApiDelete? {
        continue;
      }
      if |ops[i].value| > MAX_VALUE_SIZE {
        return Some(RecordTooLarge);
      }
      total := total + |ops[i].value|;
    }
    assert ops[..|ops|] == ops;
    return if total > MAX_BATCH_BYTES then Some(BatchTooLarge) else None;
  }

  lemma {:induction false} LoggedSize(ops: seq<ApiOp>)
    ensures 4 + |OpsBytes(LoggedAll(ops))| == CheckedSize(ops) + DeletedBytes(ops)
    decreases |ops|
  {
    if ops != [] {
      var n := |ops| - 1;
      LoggedSize(ops[..n]);
      assert LoggedAll(ops) == LoggedAll(ops[..n]) + [Logged(ops[n])];
      FlatMapConcat(OpBytes, LoggedAll(ops[..n]), [Logged(ops[n])]);
      FlatMapOne(OpBytes, Logged(ops[n]));
    }
  }

  /** The size checked is the size logged exactly when no delete carries a value. */
  lemma CheckedIsLogged(ops: seq<ApiOp>)
    requires ops != []
    ensures |EncodedBatch(LoggedAll(ops)).value| == CheckedSize(ops) + DeletedBytes(ops)
    ensures |EncodedBatch(LoggedAll(ops)).value| == CheckedSize(ops)
       <==> forall i :: 0 <= i < |ops| && ops[i].ApiDelete? ==> ops[i].value == []
  {
    LoggedSize(ops);
    NothingDeleted(ops);
  }

  lemma {:induction false} NothingDeleted(ops: seq<ApiOp>)
    ensures DeletedBytes(ops) == 0 <==> forall i :: 0 <= i < |ops| && ops[i].ApiDelete? ==> ops[i].value == []
    decreases |ops|
  {
    if ops != [] {
      var n := |ops| - 1;
      NothingDeleted(ops[..n]);
    }
  }
}
