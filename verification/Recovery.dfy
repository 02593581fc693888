/** The engine over crashes: commits, flushes, log rotations, and recovery from the log. */
module Recoveries {
  import opened Types
  import opened Codec
  import opened Sequences
  import opened RecordStores
  import opened WalRecords
  import opened WalBatches
  import opened WalLogs

  type Contents = map<Key, Bytes>

  // ---------- what a record does ----------

  /** The changes a record stands for: batches are unpacked, short keys and unknown kinds change nothing. */
  function OpsOf(kind: byte, key: Bytes, value: Bytes): Option<seq<Op>>
    decreases 2 * |value| + 1, 0
  {
    if kind == OP_BATCH then
      match DecodedBatch(value) case None => None case Some(bops) => OpsOfAll(bops, |value|)
    else if |key| < 8 then Some([])
    else if kind == OP_PUT then Some([Put(GetLE(key[..8]), value)])
    else if kind == OP_DELETE then Some([Delete(GetLE(key[..8]))])
    else Some([])
  }

  function OpsOfAll(bops: seq<BatchOp>, size: nat): Option<seq<Op>>
    requires forall i :: 0 <= i < |bops| ==> |bops[i].value| < size
    decreases 2 * size, |bops|
  {
    if bops == [] then Some([])
    else
      var first := OpsOf(bops[0].kind, bops[0].key, bops[0].value);
      var rest := OpsOfAll(bops[1..], size);
      if first.None? || rest.None? then None else Some(first.value + rest.value)
  }

  ghost predicate Readable(r: Record) {
    OpsOf(r.kind, r.key, r.value).Some?
  }

  function OpsIn(r: Record): seq<Op> {
    match OpsOf(r.kind, r.key, r.value) case None => [] case Some(ops) => ops
  }

  function Changes(records: seq<Record>): seq<Op> {
    FlatMap(OpsIn, records)
  }

  /** What the committed records leave in an empty store. */
  function State(records: seq<Record>): Contents {
    AllApplied(map[], Changes(records))
  }

  // ---------- replaying twice ----------

  /** The last change to a key: a value, or its absence. */
  function LastChange(ops: seq<Op>, k: Key): Option<Option<Bytes>> {
    if ops == [] then None
    else if ops[|ops| - 1].key == k then
      Some(if ops[|ops| - 1].Put? then Some(ops[|ops| - 1].value) else None)
    else LastChange(ops[..|ops| - 1], k)
  }

  lemma {:induction false} LastChangeDecides(m: Contents, ops: seq<Op>, k: Key)
    ensures ValueOf(AllApplied(m, ops), k)
         == (match LastChange(ops, k) case None => ValueOf(m, k) case Some(v) => v)
    decreases |ops|
  {
    if ops != [] {
      LastChangeDecides(m, ops[..|ops| - 1], k);
    }
  }

  lemma {:induction false} LastChangeConcat(a: seq<Op>, b: seq<Op>, k: Key)
    ensures LastChange(a + b, k) == if LastChange(b, k).Some? then LastChange(b, k) else LastChange(a, k)
    decreases |b|
  {
    if b == [] {
      assert a + b == a;
    } else {
      var n := |b| - 1;
      assert (a + b)[..|a| + n] == a + b[..n];
      LastChangeConcat(a, b[..n], k);
    }
  }

  lemma SameValues(m: Contents, n: Contents)
    requires forall k :: ValueOf(m, k) == ValueOf(n, k)
    ensures m == n
  {
    forall k
      ensures k in m <==> k in n
      ensures k in m ==> m[k] == n[k]
    {
      assert ValueOf(m, k) == ValueOf(n, k);
    }
  }

  /** Changes applied again, over a store that already holds any prefix of them, give the same result. */
  lemma ReplayIsIdempotent(m: Contents, done: seq<Op>, more: seq<Op>)
    ensures AllApplied(AllApplied(m, done), done + more) == AllApplied(m, done + more)
  {
    var once := AllApplied(m, done);
    forall k
      ensures ValueOf(AllApplied(once, done + more), k) == ValueOf(AllApplied(m, done + more), k)
    {
      LastChangeDecides(once, done + more, k);
      LastChangeDecides(m, done + more, k);
      LastChangeDecides(m, done, k);
      LastChangeConcat(done, more, k);
    }
    SameValues(AllApplied(once, done + more), AllApplied(m, done + more));
  }

  lemma {:induction false} AllAppliedConcat(m: Contents, a: seq<Op>, b: seq<Op>)
    ensures AllApplied(m, a + b) == AllApplied(AllApplied(m, a), b)
    decreases |b|
  {
    if b == [] {
      assert a + b == a;
    } else {
      var n := |b| - 1;
      assert (a + b)[..|a| + n] == a + b[..n];
      AllAppliedConcat(m, a, b[..n]);
    }
  }

  /** Replaying from the checkpoint over a data file that is at or past it restores everything committed. */
  lemma ReplayRestores(history: seq<Record>, checkpoint: nat, flushed: nat)
    requires checkpoint <= flushed <= |history|
    ensures AllApplied(State(history[..flushed]), Changes(history[checkpoint..])) == State(history)
  {
    var base, done, more := history[..checkpoint], history[checkpoint..flushed], history[flushed..];
    assert history[..flushed] == base + done && history[checkpoint..] == done + more && history == base + (done + more);
    FlatMapConcat(OpsIn, base, done);
    FlatMapConcat(OpsIn, done, more);
    FlatMapConcat(OpsIn, base, done + more);
    AllAppliedConcat(map[], Changes(base), Changes(done));
    ReplayIsIdempotent(State(base), Changes(done), Changes(more));
    AllAppliedConcat(map[], Changes(base), Changes(done + more));
  }

  // ---------- numbering ----------

  /** Records are numbered from 1 without a gap, and every one can be applied. */
  ghost predicate Sound(history: seq<Record>) {
    AllWellFormed(history) && AllReadable(history) && Numbered(history)
  }

  ghost predicate Numbered(history: seq<Record>) {
    forall i :: 0 <= i < |history| ==> history[i].lsn == i + 1
  }

  ghost predicate AllReadable(history: seq<Record>) {
    forall i :: 0 <= i < |history| ==> Readable(history[i])
  }

  lemma SliceEnd<T>(s: seq<T>, i: nat)
    requires i <= |s|
    ensures s[i..|s|] == s[i..] && s[..|s|] == s
  {
  }

  lemma {:induction false} HighestOfSlice(history: seq<Record>, i: nat, j: nat)
    requires Numbered(history) && i <= j <= |history|
    ensures Highest(history[i..j]) == if i < j then j else 0
    decreases j - i
  {
    if i < j {
      assert history[i..j][1..] == history[i + 1..j];
      HighestOfSlice(history, i + 1, j);
    }
  }

  /** The files hold the history from start on, after an archive that ends where they start, each with a torn tail
      perhaps. */
  ghost predicate FilesHold(file: Bytes, bak: Option<Bytes>, history: seq<Record>, start: nat, tail: Bytes) {
    && start <= |history| && IsTail(tail) && file == Log(history[start..]) + tail
    && (bak.Some? ==> ArchiveHolds(bak.value, history, start))
  }

  ghost predicate ArchiveHolds(bak: Bytes, history: seq<Record>, start: nat) {
    && start <= |history|
    && exists first: nat, tail :: first <= start && IsTail(tail) && bak == Log(history[first..start]) + tail
  }

  lemma ArchiveHighest(bak: Bytes, history: seq<Record>, start: nat)
    requires Sound(history) && ArchiveHolds(bak, history, start)
    ensures Highest(Replayed(bak).records) <= start
  {
    var first: nat, tail :| first <= start && IsTail(tail) && bak == Log(history[first..start]) + tail;
    ReplayLog(history[first..start], tail);
    HighestOfSlice(history, first, start);
  }

  /** Opening the files and then raising the number to the checkpoint resumes exactly after the last committed record.
      */
  lemma NumberingResumes(file: Bytes, bak: Option<Bytes>, history: seq<Record>, start: nat, tail: Bytes,
                         checkpoint: nat)
    requires Sound(history) && FilesHold(file, bak, history, start, tail) && start <= checkpoint <= |history|
    ensures ResumeLSN(file, bak).Some? && Max(ResumeLSN(file, bak).value, checkpoint) == |history|
  {
    LogStops(history[start..], tail);
    ReplayLog(history[start..], tail);
    assert history[start..] == history[start..|history|];
    HighestOfSlice(history, start, |history|);
    if bak.Some? {
      ArchiveHighest(bak.value, history, start);
    }
  }

  // ---------- logging operations ----------

  lemma OpsOfLogged(op: ApiOp)
    ensures OpsOf(Logged(op).kind, Logged(op).key, Logged(op).value) == Some([OpOf(op)])
  {
    RoundTrip64(op.key);
    assert PutLE(op.key, 8)[..8] == PutLE(op.key, 8);
  }

  /** The change an operation makes. */
  function OpOf(op: ApiOp): Op {
    if op.ApiPut? then Put(op.key, op.value) else Delete(op.key)
  }

  function OpsOfApi(ops: seq<ApiOp>): (r: seq<Op>)
    ensures |r| == |ops|
  {
    seq(|ops|, i requires 0 <= i < |ops| => OpOf(ops[i]))
  }

  lemma {:induction false} OpsOfAllLogged(ops: seq<ApiOp>, size: nat)
    requires forall i :: 0 <= i < |ops| ==> |ops[i].value| < size
    ensures OpsOfAll(LoggedAll(ops), size) == Some(OpsOfApi(ops))
    decreases |ops|
  {
    if ops == [] {
      assert OpsOfApi(ops) == [];
    } else {
      OpsOfLogged(ops[0]);
      OpsOfAllLogged(ops[1..], size);
      assert LoggedAll(ops)[1..] == LoggedAll(ops[1..]);
      assert OpsOfApi(ops) == [OpOf(ops[0])] + OpsOfApi(ops[1..]);
    }
  }

  /** Recovery reads a batch record as exactly the operations that were committed. */
  lemma BatchReplaysAsCommitted(ops: seq<ApiOp>)
    requires ops != [] && AllFit(LoggedAll(ops))
    ensures OpsOf(OP_BATCH, [], EncodedBatch(LoggedAll(ops)).value) == Some(OpsOfApi(ops))
  {
    var payload := EncodedBatch(LoggedAll(ops)).value;
    BatchRoundTrip(LoggedAll(ops));
    forall i | 0 <= i < |ops|
      ensures |ops[i].value| < |payload|
    {
      assert DecodedBatch(payload).value[i] == Logged(ops[i]);
    }
    OpsOfAllLogged(ops, |payload|);
  }

  // ---------- the engine ----------

  lemma CommitKeepsFiles(file: Bytes, bak: Option<Bytes>, history: seq<Record>, start: nat, r: Record)
    requires FilesHold(file, bak, history, start, [])
    ensures FilesHold(file + Encoded(r), bak, history + [r], start, [])
  {
    assert (history + [r])[start..] == history[start..] + [r];
    LogAppend(history[start..], r);
    assert Log(history[start..]) + [] == Log(history[start..]);
    assert Log((history + [r])[start..]) + [] == Log((history + [r])[start..]);
    if bak.Some? {
      ArchiveGrows(bak.value, history, start, r);
    }
  }

  lemma ArchiveGrows(bak: Bytes, history: seq<Record>, start: nat, r: Record)
    requires ArchiveHolds(bak, history, start)
    ensures ArchiveHolds(bak, history + [r], start)
  {
    var first: nat, tail :| first <= start && IsTail(tail) && bak == Log(history[first..start]) + tail;
    SliceOfGrown(history, r, first, start);
    assert bak == Log((history + [r])[first..start]) + tail;
  }

  lemma SliceOfGrown(history: seq<Record>, r: Record, i: nat, j: nat)
    requires i <= j <= |history|
    ensures (history + [r])[i..j] == history[i..j]
  {
  }

  lemma StateAppend(history: seq<Record>, r: Record)
    ensures State(history + [r]) == AllApplied(State(history), OpsIn(r))
  {
    FlatMapConcat(OpsIn, history, [r]);
    FlatMapOne(OpsIn, r);
    AllAppliedConcat(map[], Changes(history), OpsIn(r));
  }

  lemma CommitKeeps(history: seq<Record>, r: Record, flushed: nat, start: nat, bak: Option<Bytes>, file: Bytes,
                    tail: Bytes)
    requires Sound(history) && r.lsn == |history| + 1 < TWO_TO_64 && |r.key| <= 8 && FrameSize(r) <= MAX_FRAME_SIZE
    requires Readable(r)
    requires flushed <= |history| && FilesHold(file, bak, history, start, tail)
    ensures Sound(history + [r]) && State(history + [r]) == AllApplied(State(history), OpsIn(r))
    ensures (history + [r])[..flushed] == history[..flushed]
    ensures tail == [] ==> FilesHold(file + Encoded(r), bak, history + [r], start, tail)
  {
    StateAppend(history, r);
    if tail == [] {
      CommitKeepsFiles(file, bak, history, start, r);
    }
  }

  lemma RotationKeepsFiles(file: Bytes, bak: Option<Bytes>, history: seq<Record>, start: nat, tail: Bytes)
    requires FilesHold(file, bak, history, start, tail)
    ensures FilesHold([], Some(file), history, |history|, [])
  {
    NothingIsTail();
    assert history[|history|..] == [] && history[start..] == history[start..|history|];
    assert Log([]) + [] == [];
  }

  method ApplyOps(m: Contents, ops: seq<Op>) returns (r: Contents)
    ensures r == AllApplied(m, ops)
  {
    r := m;
    for i := 0 to |ops|
      invariant r == AllApplied(m, ops[..i])
    {
      assert ops[..i + 1][..i] == ops[..i];
      r := Applied(r, ops[i]);
    }
    assert ops[..|ops|] == ops;
  }

  datatype Replay = Replay(contents: Contents, count: nat, highest: nat)

  /** Applies the records numbered after the checkpoint, in order; a record that cannot be read ends the recovery. */
  method ApplyRecords(m: Contents, records: seq<Record>, checkpoint: nat) returns (r: Option<Replay>)
    ensures (forall i :: 0 <= i < |records| && records[i].lsn > checkpoint ==> Readable(records[i])) ==> r.Some?
    ensures r.Some? ==> r.value.contents == AllApplied(m, Changes(After(records, checkpoint)))
    ensures r.Some? ==>
      r.value.count == |After(records, checkpoint)| && r.value.highest == Highest(After(records, checkpoint))
  {
    var contents, count, highest := m, 0, 0;
    for i := 0 to |records|
      invariant contents == AllApplied(m, Changes(After(records[..i], checkpoint)))
      invariant count == |After(records[..i], checkpoint)| && highest == Highest(After(records[..i], checkpoint))
    {
      var rec := records[i];
      assert records[..i + 1] == records[..i] + [rec];
      AfterStep(m, records[..i], rec, checkpoint);
      if rec.lsn <= checkpoint {
        continue;
      }
      var ops := OpsOf(rec.kind, rec.key, rec.value);
      if ops.None? {
        return None;
      }
      contents := ApplyOps(contents, ops.value);
      count := count + 1;
      highest := if rec.lsn > highest then rec.lsn else highest;
    }
    assert records[..|records|] == records;
    return Some(Replay(contents, count, highest));
  }

  /** The records numbered after the checkpoint. */
  function After(records: seq<Record>, checkpoint: nat): seq<Record> {
    if records == [] then []
    else
      var n := |records| - 1;
      After(records[..n], checkpoint) + if records[n].lsn > checkpoint then [records[n]] else []
  }

  lemma AfterAppend(done: seq<Record>, r: Record, checkpoint: nat)
    ensures After(done + [r], checkpoint) == After(done, checkpoint) + if r.lsn > checkpoint then [r] else []
  {
  }

  lemma AfterStep(m: Contents, done: seq<Record>, r: Record, checkpoint: nat)
    ensures r.lsn <= checkpoint ==> After(done + [r], checkpoint) == After(done, checkpoint)
    ensures r.lsn > checkpoint ==> After(done + [r], checkpoint) == After(done, checkpoint) + [r]
    ensures Highest(After(done, checkpoint) + [r]) == Max(Highest(After(done, checkpoint)), r.lsn)
    ensures AllApplied(m, Changes(After(done, checkpoint) + [r])) ==
      AllApplied(AllApplied(m, Changes(After(done, checkpoint))), OpsIn(r))
  {
    AfterAppend(done, r, checkpoint);
    var a := After(done, checkpoint);
    HighestAppend(a, r);
    FlatMapConcat(OpsIn, a, [r]);
    FlatMapOne(OpsIn, r);
    AllAppliedConcat(m, Changes(a), OpsIn(r));
  }

  /** The records from position i up to n, if there are any. */
  function UpTo<T>(s: seq<T>, i: nat, n: nat): seq<T>
    requires n <= |s|
  {
    if i < n then s[i..n] else []
  }

  lemma UpToStep<T>(s: seq<T>, i: nat, n: nat)
    requires 0 < n <= |s|
    ensures UpTo(s, i, n) == UpTo(s, i, n - 1) + if i < n then [s[n - 1]] else []
  {
  }

  lemma {:induction false} AfterIsSlice(history: seq<Record>, start: nat, n: nat, checkpoint: nat)
    requires Numbered(history) && start <= checkpoint && start <= n <= |history|
    ensures After(history[start..n], checkpoint) == UpTo(history, checkpoint, n)
    decreases n
  {
    if start < n {
      AfterIsSlice(history, start, n - 1, checkpoint);
      AfterAppend(history[start..n - 1], history[n - 1], checkpoint);
      SliceAppend(history, start, n);
      UpToStep(history, checkpoint, n);
    }
  }

  lemma SliceAppend<T>(s: seq<T>, i: nat, n: nat)
    requires i < n <= |s|
    ensures s[i..n] == s[i..n - 1] + [s[n - 1]]
  {
  }

  /** What a recovery applies to the data file, and that the result is everything committed. */
  lemma RecoveryRestores(history: seq<Record>, start: nat, tail: Bytes, file: Bytes, checkpoint: nat, flushed: nat)
    requires Sound(history) && start <= checkpoint <= flushed <= |history| && IsTail(tail)
    requires file == Log(history[start..]) + tail
    ensures Replayed(file) == Report(history[start..], tail != [])
    ensures After(history[start..], checkpoint) == history[checkpoint..]
    ensures Highest(history[checkpoint..]) == if checkpoint < |history| then |history| else 0
    ensures AllApplied(State(history[..flushed]), Changes(history[checkpoint..])) == State(history)
  {
    ReplayLog(history[start..], tail);
    AfterIsSlice(history, start, |history|, checkpoint);
    HighestOfSlice(history, checkpoint, |history|);
    ReplayRestores(history, checkpoint, flushed);
    SliceEnd(history, start);
    SliceEnd(history, checkpoint);
  }

  /** What ties the files, the numbers and the contents to the committed records. */
  ghost predicate EngineHolds(file: Bytes, bak: Option<Bytes>, currentLSN: nat, memory: Contents, image: Contents,
                              checkpoint: nat, history: seq<Record>, flushed: nat, start: nat, tail: Bytes) {
    && Sound(history)
    && start <= checkpoint <= flushed <= |history|
    && FilesHold(file, bak, history, start, tail)
    && currentLSN == |history|
    && image == State(history[..flushed])
    && memory == State(history)
  }

  lemma EngineCommit(file: Bytes, bak: Option<Bytes>, memory: Contents, image: Contents, checkpoint: nat,
                     history: seq<Record>, flushed: nat, start: nat, tail: Bytes, r: Record)
    requires EngineHolds(file, bak, |history|, memory, image, checkpoint, history, flushed, start, tail)
    requires r.lsn == |history| + 1 < TWO_TO_64 && |r.key| <= 8 && FrameSize(r) <= MAX_FRAME_SIZE && Readable(r)
    ensures tail == [] ==>
      EngineHolds(file + Encoded(r), bak, |history| + 1, AllApplied(memory, OpsIn(r)), image, checkpoint,
                  history + [r], flushed, start, tail)
  {
    CommitKeeps(history, r, flushed, start, bak, file, tail);
  }

  /** Replays the log over the data file. */
  method ReplayOver(file: Bytes, image: Contents, checkpoint: nat,
                    ghost history: seq<Record>, ghost flushed: nat, ghost start: nat, ghost tail: Bytes)
    returns (replay: Replay)
    requires Sound(history) && start <= checkpoint <= flushed <= |history| && IsTail(tail)
    requires file == Log(history[start..]) + tail
    requires image == State(history[..flushed])
    ensures replay.contents == State(history)
    ensures replay.count > 0 ==> replay.highest == |history|
  {
    RecoveryRestores(history, start, tail, file, checkpoint, flushed);
    HandledIs(WalRecords.Replayed(file).records, [], r => false);
    assert WalRecords.Replayed(file).records + [] == WalRecords.Replayed(file).records;
    var records, _, torn, _ := WalLogs.Replay(file, r => false);
    var r := ApplyRecords(image, records, checkpoint);
    replay := r.value;
  }

  lemma RecoveredHolds(file: Bytes, bak: Option<Bytes>, contents: Contents, history: seq<Record>, start: nat,
                       tail: Bytes)
    requires Sound(history) && FilesHold(file, bak, history, start, tail) && contents == State(history)
    ensures EngineHolds(file, bak, |history|, contents, contents, |history|, history, |history|, start, tail)
  {
    SliceEnd(history, 0);
  }

  /** Opens the log, replays it over the data file, and flushes if anything was replayed. */
  method Recover(file: Bytes, bak: Option<Bytes>, image: Contents, checkpoint: nat,
                 ghost history: seq<Record>, ghost flushed: nat, ghost start: nat, ghost tail: Bytes)
    returns (wal: WAL, memory: Contents, newImage: Contents, newCheckpoint: nat, ghost newFlushed: nat)
    requires EngineHolds(file, bak, |history|, State(history), image, checkpoint, history, flushed, start, tail)
    ensures fresh(wal) && memory == State(history) && wal.currentLSN == |history|
    ensures EngineHolds(wal.file, wal.bak, wal.currentLSN, memory, newImage, newCheckpoint, history, newFlushed, start,
                        tail)
  {
    NumberingResumes(file, bak, history, start, tail, checkpoint);
    var reopened := OpenWAL(file, bak);
    wal := reopened.value;
    wal.SetCurrentLSN(checkpoint);
    var replay := ReplayOver(file, image, checkpoint, history, flushed, start, tail);
    memory := replay.contents;
    RecoveredHolds(file, bak, memory, history, start, tail);
    if replay.count > 0 {
      newImage, newCheckpoint, newFlushed := memory, replay.highest, |history|;
    } else {
      newImage, newCheckpoint, newFlushed := image, checkpoint, flushed;
    }
  }

  /** A write cut off by a crash at a record boundary leaves a torn tail. */
  lemma CrashKeeps(file: Bytes, bak: Option<Bytes>, lsn: nat, memory: Contents, image: Contents, checkpoint: nat,
                   history: seq<Record>, flushed: nat, start: nat, tail: Bytes, partial: Bytes)
    requires EngineHolds(file, bak, lsn, memory, image, checkpoint, history, flushed, start, tail)
    requires IsTail(partial) && (tail == [] || partial == [])
    ensures EngineHolds(file + partial, bak, |history|, State(history), image, checkpoint, history, flushed, start,
                        tail + partial)
  {
    if partial == [] {
      assert file + partial == file && tail + partial == tail;
    } else {
      assert tail + partial == partial && Log(history[start..]) + [] == Log(history[start..]);
    }
  }

  /** What becomes of a put or a delete: a halted engine refuses both. */
  datatype WriteOutcome = Written(lsn: nat) | ValueTooLarge | EngineHalted

  datatype BatchOutcome = Committed | EmptyBatch | SizeRefused | HaltRefused | ConditionRefused | LogRefused

  /** No value is above the limit, and the batch, values of deletes apart, is not too large. */
  predicate SizesFit(ops: seq<ApiOp>) {
    && (forall i :: 0 <= i < |ops| && ops[i].ApiPut? ==> |ops[i].value| <= MAX_VALUE_SIZE)
    && CheckedSize(ops) <= MAX_BATCH_BYTES
  }

  /** The log counts the values of deletes as well. */
  predicate FrameFits(ops: seq<ApiOp>) {
    HEADER_SIZE + CheckedSize(ops) + DeletedBytes(ops) <= MAX_FRAME_SIZE
  }

  /** What becomes of a batch: the first of the checks that fails decides. */
  function Verdict(memory: Contents, halted: bool, ops: seq<ApiOp>, conds: seq<(uint64, Condition)>): BatchOutcome {
    if ops == [] then EmptyBatch
    else if !SizesFit(ops) then SizeRefused
    else if halted then HaltRefused
    else if !AllMet(memory, conds) then ConditionRefused
    else if !FrameFits(ops) then LogRefused
    else Committed
  }

  /** A batch commits only over contents that its conditions describe. */
  lemma CommittedAsGuarded(memory: Contents, halted: bool, ops: seq<ApiOp>, conds: seq<(uint64, Condition)>, i: nat)
    requires i < |conds| && Verdict(memory, halted, ops, conds) == Committed
    ensures conds[i].1 == Absent ==> conds[i].0 as Key !in memory
    ensures conds[i].1 == Present ==> conds[i].0 as Key in memory
    ensures conds[i].1.ValueEquals? ==> conds[i].0 as Key in memory && memory[conds[i].0] == conds[i].1.value
  {
    AllMetIs(memory, conds);
  }

  /** Of two batches that put a key if it is absent, one after the other, at most one commits. */
  lemma PutIfAbsentOnce(memory: Contents, key: uint64, first: Bytes, second: Bytes)
    ensures var conds := [(key, Absent)];
      Verdict(memory, false, [ApiPut(key, first)], conds) == Committed ==>
        Verdict(AllApplied(memory, OpsOfApi([ApiPut(key, first)])), false, [ApiPut(key, second)], conds) != Committed
  {
    var conds, ops := [(key, Absent)], [ApiPut(key, first)];
    assert OpsOfApi(ops) == [Put(key, first)];
    AppliedOne(memory, Put(key, first));
    AllMetIs(memory[key := first], conds);
    assert conds[0].1 == Absent;
  }

  lemma AppliedOne(m: Contents, op: Op)
    ensures AllApplied(m, [op]) == Applied(m, op)
  {
  }

  /** A batch whose frame is accepted keeps to the field widths. */
  lemma LoggedFits(ops: seq<ApiOp>)
    requires ops != [] && HEADER_SIZE + |EncodedBatch(LoggedAll(ops)).value| <= MAX_FRAME_SIZE
    ensures AllFit(LoggedAll(ops))
  {
    OpsAreFew(LoggedAll(ops));
    forall i | 0 <= i < |ops|
      ensures OpFits(LoggedAll(ops)[i])
    {
      OpsSplit(LoggedAll(ops), i);
    }
  }

  lemma {:induction false} OpsAreFew(bops: seq<BatchOp>)
    ensures 7 * |bops| <= |OpsBytes(bops)|
    decreases |bops|
  {
    if bops != [] {
      OpsAreFew(bops[1..]);
      FlatMapFirst(OpBytes, bops);
    }
  }

  class DurableEngine {
    /** The contents in memory: tree, pages and pool together. */
    var memory: Contents
    var wal: WAL
    /** The data file at its last flush, and the log number its meta page names. */
    var image: Contents
    var checkpointLSN: nat
    /** Set when the log refuses a frame; every write is refused from then on until the engine is started again. */
    var halted: bool

    /** The committed records; how many the data file reflects; where the active log starts; what is left of a torn
        write. */
    ghost var history: seq<Record>
    ghost var flushed: nat
    ghost var start: nat
    ghost var tail: Bytes

    ghost predicate Valid()
      reads this, wal
    {
      EngineHolds(wal.file, wal.bak, wal.currentLSN, memory, image, checkpointLSN, history, flushed, start, tail)
    }

    constructor ()
      ensures Valid() && history == [] && tail == [] && memory == map[] && fresh(wal) && wal.currentLSN == 0
      ensures !halted
    {
      memory, image, checkpointLSN, halted := map[], map[], 0, false;
      wal := new WAL([], None, 0);
      history, flushed, start, tail := [], 0, 0, [];
      new;
      NothingIsTail();
      assert Log([]) + [] == [];
    }

    /** Logs a record and then applies it; the log keeps its promise if it ended at a record boundary. A frame the log
        refuses halts the engine. */
    method Commit(kind: byte, key: Bytes, value: Bytes) returns (lsn: Option<nat>)
      requires Valid() && !halted && |key| <= 8 && wal.currentLSN + 1 < TWO_TO_64
      requires HEADER_SIZE + |key| + |value| <= MAX_FRAME_SIZE ==> OpsOf(kind, key, value).Some?
      modifies this, wal
      ensures lsn.Some? <==> HEADER_SIZE + |key| + |value| <= MAX_FRAME_SIZE
      ensures halted <==> lsn.None?
      ensures lsn.None? ==> Valid() && history == old(history) && tail == old(tail) && memory == old(memory)
      ensures lsn.Some? ==> lsn.value > |old(history)|
      ensures lsn.Some? ==> history == old(history) + [Record(lsn.value, kind, key, value)]
      ensures lsn.Some? ==> memory == AllApplied(old(memory), OpsIn(Record(lsn.value, kind, key, value)))
      ensures wal == old(wal) && tail == old(tail) && (tail == [] ==> Valid())
    {
      var r := Record(wal.currentLSN + 1, kind, key, value);
      lsn := wal.Write(kind, key, value);
      if lsn.None? {
        halted := true;
        return;
      }
      EngineCommit(old(wal.file), wal.bak, memory, image, checkpointLSN, history, flushed, start, tail, r);
      history := history + [r];
      memory := ApplyOps(memory, OpsIn(r));
    }

    /** A put is one record, and what recovery would replay is what happened in memory. It is refused only for its size
        or by a halted engine, and does not halt one. */
    method LogPut(key: uint64, value: Bytes) returns (outcome: WriteOutcome)
      requires Valid() && wal.currentLSN + 1 < TWO_TO_64
      modifies this, wal
      ensures outcome.ValueTooLarge? <==> |value| > MAX_VALUE_SIZE
      ensures outcome.EngineHalted? <==> |value| <= MAX_VALUE_SIZE && old(halted)
      ensures outcome.Written? ==> memory == old(memory)[key := value] && |history| == |old(history)| + 1
      ensures !outcome.Written? ==> memory == old(memory) && history == old(history) && Valid()
      ensures halted == old(halted)
      ensures wal == old(wal) && tail == old(tail) && (tail == [] ==> Valid())
    {
      if |value| > MAX_VALUE_SIZE {
        return ValueTooLarge;
      }
      if halted {
        return EngineHalted;
      }
      OpsOfLogged(ApiPut(key, value));
      var lsn := Commit(OP_PUT, PutLE(key, 8), value);
      AppliedOne(old(memory), Put(key, value));
      outcome := Written(lsn.value);
    }

    method LogDelete(key: uint64) returns (outcome: WriteOutcome)
      requires Valid() && wal.currentLSN + 1 < TWO_TO_64
      modifies this, wal
      ensures outcome.EngineHalted? <==> old(halted)
      ensures outcome.Written? <==> !old(halted)
      ensures outcome.Written? ==> memory == old(memory) - {key as Key} && |history| == |old(history)| + 1
      ensures !outcome.Written? ==> memory == old(memory) && history == old(history) && Valid()
      ensures halted == old(halted)
      ensures wal == old(wal) && tail == old(tail) && (tail == [] ==> Valid())
    {
      if halted {
        return EngineHalted;
      }
      OpsOfLogged(ApiDelete(key, []));
      var lsn := Commit(OP_DELETE, PutLE(key, 8), []);
      AppliedOne(old(memory), Delete(key));
      outcome := Written(lsn.value);
    }

    /** A batch is one record: all of it commits or none does. It is refused when it is empty or too large, when the
        engine has halted or when a condition fails, and it halts the engine only over the values its deletes carry,
        which the size check does not count. */
    method BatchWriteIf(ops: seq<ApiOp>, conds: seq<(uint64, Condition)>) returns (outcome: BatchOutcome)
      requires Valid() && wal.currentLSN + 1 < TWO_TO_64
      modifies this, wal
      ensures outcome == Verdict(old(memory), old(halted), ops, conds)
      ensures outcome == Committed ==>
        memory == AllApplied(old(memory), OpsOfApi(ops)) && |history| == |old(history)| + 1
      ensures outcome != Committed ==> memory == old(memory) && history == old(history) && Valid()
      ensures outcome == Committed ==>
        forall i :: 0 <= i < |conds| && conds[i].1 == Absent ==> conds[i].0 !in old(memory)
      ensures halted == (old(halted) || outcome == LogRefused)
      ensures wal == old(wal) && tail == old(tail) && (tail == [] ==> Valid())
    {
      if ops == [] {
        return EmptyBatch;
      }
      var e := CheckValueSizes(ops);
      if e.Some? {
        assert e.value.RecordTooLarge? || e.value.BatchTooLarge?;
        return SizeRefused;
      }
      if halted {
        return HaltRefused;
      }
      for i := 0 to |conds|
        invariant AllMet(memory, conds[..i])
        invariant Valid() && memory == old(memory) && history == old(history) && wal == old(wal) && tail == old(tail)
        invariant wal.currentLSN == old(wal.currentLSN) && !halted
      {
        MetSoFar(memory, conds, i);
        if !Meets(ValueOf(memory, conds[i].0), conds[i].1) {
          return ConditionRefused;
        }
      }
      assert conds[..|conds|] == conds;
      AllMetIs(memory, conds);
      outcome := LogBatch(ops);
    }

    method LogBatch(ops: seq<ApiOp>) returns (outcome: BatchOutcome)
      requires Valid() && !halted && wal.currentLSN + 1 < TWO_TO_64 && ops != [] && SizesFit(ops)
      modifies this, wal
      ensures outcome == if FrameFits(ops) then Committed else LogRefused
      ensures outcome == Committed ==>
        memory == AllApplied(old(memory), OpsOfApi(ops)) && |history| == |old(history)| + 1
      ensures outcome != Committed ==> memory == old(memory) && history == old(history) && Valid()
      ensures halted <==> outcome == LogRefused
      ensures wal == old(wal) && tail == old(tail) && (tail == [] ==> Valid())
    {
      var payload := EncodeBatchPayload(LoggedAll(ops));
      CheckedIsLogged(ops);
      if HEADER_SIZE + |payload.value| <= MAX_FRAME_SIZE {
        LoggedFits(ops);
        BatchReplaysAsCommitted(ops);
      }
      var lsn := Commit(OP_BATCH, [], payload.value);
      return if lsn.Some? then Committed else LogRefused;
    }

    /** The pool writes its pages to the data file; the meta page may still name an older record. */
    method FlushPages()
      requires Valid()
      modifies this
      ensures Valid() && history == old(history) && tail == old(tail) && memory == old(memory) && wal == old(wal)
      ensures halted == old(halted)
      ensures image == memory && checkpointLSN == old(checkpointLSN)
    {
      assert history[..|history|] == history;
      image, flushed := memory, |history|;
    }

    /** The meta page names the last committed record and goes to the data file with the other pages. */
    method FlushWithMeta()
      requires Valid()
      modifies this
      ensures Valid() && history == old(history) && tail == old(tail) && memory == old(memory) && wal == old(wal)
      ensures halted == old(halted)
      ensures image == memory && checkpointLSN == wal.currentLSN
    {
      assert history[..|history|] == history;
      image, flushed, checkpointLSN := memory, |history|, wal.currentLSN;
    }

    /** Flushes everything, then rotates the log: from here on only the new log is replayed, and it is clean. */
    method Checkpoint()
      requires Valid()
      modifies this, wal
      ensures Valid() && history == old(history) && memory == old(memory) && wal == old(wal) && halted == old(halted)
      ensures tail == [] && wal.file == []
    {
      FlushWithMeta();
      RotationKeepsFiles(wal.file, wal.bak, history, start, tail);
      wal.Checkpoint();
      start, tail := |history|, [];
    }

    /** Rotation removes the old archive first; a crash may come right then. */
    method CrashInRotation()
      requires Valid()
      modifies wal
      ensures Valid() && wal.bak == None
    {
      wal.RemoveArchive();
    }

    /** The process dies, perhaps leaving part of a record that never committed at the end of the log, and is started
        again on the files it left: everything committed is back, numbering goes on where it stopped, and a halt is
        over. */
    method CrashAndReopen(partial: Bytes)
      requires Valid() && IsTail(partial) && (tail == [] || partial == [])
      modifies this
      ensures Valid() && history == old(history) && tail == old(tail) + partial
      ensures fresh(wal) && memory == State(history) && wal.currentLSN == |history| && !halted
    {
      ghost var cut := tail + partial;
      var w, contents, saved, checkpoint, f := Reopened(partial);
      Restart(w, contents, saved, checkpoint, f, cut);
    }

    method Restart(newWal: WAL, contents: Contents, newImage: Contents, newCheckpoint: nat, ghost newFlushed: nat,
                   ghost newTail: Bytes)
      modifies this
      ensures wal == newWal && memory == contents && image == newImage && checkpointLSN == newCheckpoint && !halted
      ensures history == old(history) && flushed == newFlushed && start == old(start) && tail == newTail
    {
      wal, memory, image, checkpointLSN, halted := newWal, contents, newImage, newCheckpoint, false;
      flushed, tail := newFlushed, newTail;
    }

    /** What starting again on the files gives. */
    method Reopened(partial: Bytes)
      returns (newWal: WAL, contents: Contents, newImage: Contents, newCheckpoint: nat, ghost newFlushed: nat)
      requires Valid() && IsTail(partial) && (tail == [] || partial == [])
      ensures fresh(newWal) && contents == State(history) && newWal.currentLSN == |history|
      ensures EngineHolds(newWal.file, newWal.bak, newWal.currentLSN, contents, newImage, newCheckpoint,
                          history, newFlushed, start, tail + partial)
    {
      CrashKeeps(wal.file, wal.bak, wal.currentLSN, memory, image, checkpointLSN, history, flushed, start, tail,
                 partial);
      newWal, contents, newImage, newCheckpoint, newFlushed :=
        Recover(wal.file + partial, wal.bak, image, checkpointLSN, history, flushed, start, tail + partial);
    }
  }
}
