/** The engine over the record store and its tree: what recovery over a map comes to when values live in pages. */
module StoredEngines {
  import opened Types
  import opened Sequences
  import opened Codec
  import opened RecordStores
  import opened WalRecords
  import opened WalBatches
  import opened WalLogs
  import opened Recoveries

  /** Everything logged has keys and values of the sizes a client may store. */
  ghost predicate HistoryStorable(history: seq<Record>) {
    forall i :: 0 <= i < |history| ==> AllStorable(OpsIn(history[i]))
  }

  lemma StorableThen(history: seq<Record>, r: Record)
    requires HistoryStorable(history) && AllStorable(OpsIn(r))
    ensures HistoryStorable(history + [r])
  {
  }

  lemma ApiStorable(ops: seq<ApiOp>)
    requires forall i :: 0 <= i < |ops| && ops[i].ApiPut? ==> |ops[i].value| <= MAX_VALUE_SIZE
    ensures AllStorable(OpsOfApi(ops))
  {
  }

  // ---------- why the store does not go along ----------

  /** The file is full and one of these changes is a put that the store then cannot take in. */
  ghost predicate OutOfPages(numPages: nat, limit: nat, lost: set<PageId>, values: Contents, ops: seq<Op>) {
    numPages >= limit && StuckIn(limit, lost, values, ops)
  }

  /** What an outcome says of changes applied to these values; any other outcome than Done has such a reason. */
  ghost predicate Explains(outcome: Outcome, numPages: nat, limit: nat, lost: set<PageId>, values: Contents,
                           ops: seq<Op>)
  {
    match outcome
    case Done => true
    case Halted => OutOfPages(numPages, limit, lost, values, ops)
    case TreeBroken => BreaksIn(limit, values, ops)
    case ConditionFailed => false
  }

  /** Without a put the store never runs out of pages, and without a deletion the tree never breaks. */
  lemma NothingToRefuse(outcome: Outcome, numPages: nat, limit: nat, lost: set<PageId>, values: Contents, ops: seq<Op>)
    requires Explains(outcome, numPages, limit, lost, values, ops)
    ensures outcome == Halted ==> exists n :: 0 <= n < |ops| && ops[n].Put?
    ensures outcome == TreeBroken ==> exists n :: 0 <= n < |ops| && ops[n].Delete?
  {
    if outcome == Halted {
      var n :| 0 <= n < |ops| && StuckAt(limit, lost, values, ops, n);
      assert ops[n].Put?;
    } else if outcome == TreeBroken {
      var n :| 0 <= n < |ops| && BreaksAt(limit, values, ops, n);
      assert ops[n].Delete?;
    }
  }

  /** A reason found in the middle of a longer run of changes is one for all of it. */
  lemma ExplainsWithin(outcome: Outcome, numPages: nat, limit: nat, lost: set<PageId>, values: Contents,
                       before: seq<Op>, ops: seq<Op>, rest: seq<Op>)
    requires Explains(outcome, numPages, limit, lost, AllApplied(values, before), ops)
    ensures Explains(outcome, numPages, limit, lost, values, before + ops + rest)
  {
    var all := before + ops + rest;
    if outcome == Halted {
      var n :| 0 <= n < |ops| && StuckAt(limit, lost, AllApplied(values, before), ops, n);
      WithinAt(values, before, ops, rest, n);
      assert StuckAt(limit, lost, values, all, |before| + n);
    } else if outcome == TreeBroken {
      var n :| 0 <= n < |ops| && BreaksAt(limit, AllApplied(values, before), ops, n);
      WithinAt(values, before, ops, rest, n);
      assert BreaksAt(limit, values, all, |before| + n);
    }
  }

  lemma WithinAt(values: Contents, before: seq<Op>, ops: seq<Op>, rest: seq<Op>, n: nat)
    requires n < |ops|
    ensures (before + ops + rest)[|before| + n] == ops[n]
    ensures AllApplied(values, (before + ops + rest)[..|before| + n])
         == AllApplied(AllApplied(values, before), ops[..n])
  {
    assert (before + ops + rest)[..|before| + n] == before + ops[..n];
    AllAppliedConcat(values, before, ops[..n]);
  }

  // ---------- replay ----------

  lemma {:induction false} AfterConcat(a: seq<Record>, b: seq<Record>, checkpoint: nat)
    ensures After(a + b, checkpoint) == After(a, checkpoint) + After(b, checkpoint)
    decreases |b|
  {
    if b == [] {
      assert a + b == a;
    } else {
      var c, r := b[..|b| - 1], b[|b| - 1];
      assert a + b == (a + c) + [r] && b == c + [r];
      AfterConcat(a, c, checkpoint);
      AfterAppend(a + c, r, checkpoint);
      AfterAppend(c, r, checkpoint);
    }
  }

  /** The changes of a log around one of its records. */
  lemma ChangesAround(records: seq<Record>, i: nat, checkpoint: nat)
    requires i < |records| && records[i].lsn > checkpoint
    ensures Changes(After(records, checkpoint)) ==
      Changes(After(records[..i], checkpoint)) + OpsIn(records[i]) + Changes(After(records[i + 1..], checkpoint))
  {
    var before, rec, rest := records[..i], records[i], records[i + 1..];
    assert records == (before + [rec]) + rest;
    AfterConcat(before + [rec], rest, checkpoint);
    AfterAppend(before, rec, checkpoint);
    FlatMapConcat(OpsIn, After(before, checkpoint) + [rec], After(rest, checkpoint));
    FlatMapConcat(OpsIn, After(before, checkpoint), [rec]);
    FlatMapOne(OpsIn, rec);
  }

  datatype StoreReplay = StoreReplay(outcome: Outcome, count: nat, highest: nat)

  /** Applies the records numbered after the checkpoint to the store, until one of them is not applied. */
  method ReplayInto(store: RecordStore, records: seq<Record>, checkpoint: nat) returns (r: StoreReplay)
    requires store.Valid() && HistoryStorable(records) && AllReadable(records)
    modifies store, store.tree
    ensures r.outcome == Done ==>
      store.Valid() && store.values == AllApplied(old(store.values), Changes(After(records, checkpoint)))
    ensures r.outcome == Done ==>
      r.count == |After(records, checkpoint)| && r.highest == Highest(After(records, checkpoint))
    ensures Explains(r.outcome, store.tree.numPages, store.limit, store.lost, old(store.values),
                     Changes(After(records, checkpoint)))
    ensures r.outcome == TreeBroken ==> store.tree.Broken()
  {
    var count, highest := 0, 0;
    for i := 0 to |records|
      invariant store.Valid() && store.values == AllApplied(old(store.values), Changes(After(records[..i], checkpoint)))
      invariant count == |After(records[..i], checkpoint)| && highest == Highest(After(records[..i], checkpoint))
    {
      var rec := records[i];
      assert records[..i + 1] == records[..i] + [rec];
      AfterStep(old(store.values), records[..i], rec, checkpoint);
      if rec.lsn <= checkpoint {
        continue;
      }
      assert Readable(rec) && AllStorable(OpsIn(rec));
      var outcome := store.ApplyAll(OpsIn(rec));
      if outcome != Done {
        ChangesAround(records, i, checkpoint);
        ExplainsWithin(outcome, store.tree.numPages, store.limit, store.lost, old(store.values),
                       Changes(After(records[..i], checkpoint)), OpsIn(rec),
                       Changes(After(records[i + 1..], checkpoint)));
        return StoreReplay(outcome, count, highest);
      }
      count := count + 1;
      highest := if rec.lsn > highest then rec.lsn else highest;
    }
    assert records[..|records|] == records;
    return StoreReplay(Done, count, highest);
  }

  /** What replay finds in the log, and that it leads from the flushed contents to everything committed. */
  lemma LogCovers(file: Bytes, checkpoint: nat, history: seq<Record>, flushed: nat, start: nat, tail: Bytes)
    requires Sound(history) && HistoryStorable(history) && start <= checkpoint <= flushed <= |history|
    requires IsTail(tail) && file == Log(history[start..]) + tail
    ensures var records := WalRecords.Replayed(file).records;
      && HistoryStorable(records) && AllReadable(records)
      && AllApplied(State(history[..flushed]), Changes(After(records, checkpoint))) == State(history)
      && (After(records, checkpoint) != [] ==> Highest(After(records, checkpoint)) == |history|)
      && After(records, checkpoint) == history[checkpoint..]
  {
    RecoveryRestores(history, start, tail, file, checkpoint, flushed);
    var records := history[start..];
    forall i | 0 <= i < |records|
      ensures AllStorable(OpsIn(records[i])) && Readable(records[i])
    {
      assert records[i] == history[start + i];
    }
  }

  /** Replays the log over the data file it belongs to. */
  method ReplayFile(store: RecordStore, file: Bytes, checkpoint: nat,
                    ghost history: seq<Record>, ghost flushed: nat, ghost start: nat, ghost tail: Bytes)
    returns (r: StoreReplay)
    requires Sound(history) && HistoryStorable(history) && start <= checkpoint <= flushed <= |history|
    requires IsTail(tail) && file == Log(history[start..]) + tail
    requires store.Valid() && store.values == State(history[..flushed])
    modifies store, store.tree
    ensures r.outcome == Done ==> store.Valid() && store.values == State(history)
    ensures r.outcome == Done && r.count > 0 ==> r.highest == |history|
    ensures Explains(r.outcome, store.tree.numPages, store.limit, store.lost, old(store.values),
                     Changes(history[checkpoint..]))
    ensures r.outcome == TreeBroken ==> store.tree.Broken()
  {
    LogCovers(file, checkpoint, history, flushed, start, tail);
    HandledIs(WalRecords.Replayed(file).records, [], r => false);
    assert WalRecords.Replayed(file).records + [] == WalRecords.Replayed(file).records;
    var records, _, _, _ := WalLogs.Replay(file, r => false);
    r := ReplayInto(store, records, checkpoint);
  }

  // ---------- the engine ----------

  /** What the files keep: the log, and a data file holding what was committed when it was last flushed. */
  ghost predicate FilesKeep(file: Bytes, bak: Option<Bytes>, lsn: nat, image: Image, limit: nat, saved: Contents,
                            checkpoint: nat,
                            history: seq<Record>, flushed: nat, start: nat, tail: Bytes) {
    && EngineHolds(file, bak, lsn, State(history), saved, checkpoint, history, flushed, start, tail)
    && ImageHolds(image, limit, saved) && HistoryStorable(history)
  }

  lemma NewFiles(image: Image, limit: nat)
    requires ImageHolds(image, limit, map[])
    ensures FilesKeep([], None, 0, image, limit, map[], 0, [], 0, 0, [])
  {
    NothingIsTail();
    assert Log([]) + [] == [];
  }

  lemma FilesCommit(file: Bytes, bak: Option<Bytes>, image: Image, limit: nat, saved: Contents, checkpoint: nat,
                    history: seq<Record>, flushed: nat, start: nat, tail: Bytes, r: Record)
    requires FilesKeep(file, bak, |history|, image, limit, saved, checkpoint, history, flushed, start, tail)
    requires r.lsn == |history| + 1 < TWO_TO_64 && |r.key| <= 8 && FrameSize(r) <= MAX_FRAME_SIZE
    requires Readable(r) && AllStorable(OpsIn(r))
    ensures State(history + [r]) == AllApplied(State(history), OpsIn(r))
    ensures tail == [] ==>
      FilesKeep(file + Encoded(r), bak, |history| + 1, image, limit, saved, checkpoint, history + [r], flushed, start,
                tail)
  {
    CommitKeeps(history, r, flushed, start, bak, file, tail);
    StorableThen(history, r);
  }

  lemma FilesFlush(file: Bytes, bak: Option<Bytes>, lsn: nat, image: Image, limit: nat, saved: Contents,
                   checkpoint: nat,
                   history: seq<Record>, flushed: nat, start: nat, tail: Bytes, image': Image)
    requires FilesKeep(file, bak, lsn, image, limit, saved, checkpoint, history, flushed, start, tail)
    requires ImageHolds(image', limit, State(history))
    ensures FilesKeep(file, bak, lsn, image', limit, State(history), checkpoint, history, |history|, start, tail)
    ensures FilesKeep(file, bak, lsn, image', limit, State(history), lsn, history, |history|, start, tail)
  {
    assert history[..|history|] == history;
  }

  lemma FilesRotate(file: Bytes, bak: Option<Bytes>, lsn: nat, image: Image, limit: nat, saved: Contents,
                    checkpoint: nat,
                    history: seq<Record>, flushed: nat, start: nat, tail: Bytes)
    requires FilesKeep(file, bak, lsn, image, limit, saved, checkpoint, history, flushed, start, tail)
    requires checkpoint == lsn
    ensures FilesKeep([], Some(file), lsn, image, limit, saved, checkpoint, history, flushed, |history|, [])
  {
    RotationKeepsFiles(file, bak, history, start, tail);
  }

  lemma FilesCrash(file: Bytes, bak: Option<Bytes>, lsn: nat, image: Image, limit: nat, saved: Contents,
                   checkpoint: nat,
                   history: seq<Record>, flushed: nat, start: nat, tail: Bytes, partial: Bytes)
    requires FilesKeep(file, bak, lsn, image, limit, saved, checkpoint, history, flushed, start, tail)
    requires IsTail(partial) && (tail == [] || partial == [])
    ensures FilesKeep(file + partial, bak, |history|, image, limit, saved, checkpoint, history, flushed, start,
                      tail + partial)
  {
    CrashKeeps(file, bak, lsn, State(history), saved, checkpoint, history, flushed, start, tail, partial);
  }

  lemma FilesReplayed(file: Bytes, bak: Option<Bytes>, image: Image, limit: nat, saved: Contents, checkpoint: nat,
                      history: seq<Record>, flushed: nat, start: nat, tail: Bytes, image': Image)
    requires FilesKeep(file, bak, |history|, image, limit, saved, checkpoint, history, flushed, start, tail)
    requires ImageHolds(image', limit, State(history))
    ensures FilesKeep(file, bak, |history|, image', limit, State(history), |history|, history, |history|, start, tail)
  {
    FilesFlush(file, bak, |history|, image, limit, saved, checkpoint, history, flushed, start, tail, image');
  }

  /** Numbering resumes after the last committed record. */
  method OpenLog(file: Bytes, bak: Option<Bytes>, checkpoint: nat,
                 ghost history: seq<Record>, ghost start: nat, ghost tail: Bytes) returns (wal: WAL)
    requires Sound(history) && FilesHold(file, bak, history, start, tail) && start <= checkpoint <= |history|
    ensures fresh(wal) && wal.file == file && wal.bak == bak && wal.currentLSN == |history|
  {
    NumberingResumes(file, bak, history, start, tail, checkpoint);
    var reopened := OpenWAL(file, bak);
    wal := reopened.value;
    wal.SetCurrentLSN(checkpoint);
  }

  /** Opens the files, replays the log over the data file, and flushes if anything was replayed. Replay may need more
      pages than the file may have, and then nothing is written; a deletion it repeats may leave no tree. */
  method RecoverStore(file: Bytes, bak: Option<Bytes>, image: Image, limit: nat, checkpoint: nat, ghost saved: Contents,
                      ghost history: seq<Record>, ghost flushed: nat, ghost start: nat, ghost tail: Bytes)
    returns (store: RecordStore, wal: WAL, applied: Outcome, newImage: Image, newCheckpoint: nat,
             ghost newSaved: Contents, ghost newFlushed: nat)
    requires FilesKeep(file, bak, |history|, image, limit, saved, checkpoint, history, flushed, start, tail)
    ensures fresh(store) && fresh(store.tree) && fresh(wal) && wal.currentLSN == |history|
    ensures applied == Done ==> store.Valid() && store.limit == limit && store.values == State(history)
    ensures applied == Done || applied == Halted ==>
      FilesKeep(wal.file, wal.bak, wal.currentLSN, newImage, limit, newSaved, newCheckpoint, history, newFlushed,
                start, tail)
    ensures Explains(applied, store.tree.numPages, limit, store.lost, saved, Changes(history[checkpoint..]))
    ensures applied == TreeBroken ==> store.tree.Broken()
    ensures applied != Done ==> newSaved == saved && newCheckpoint == checkpoint
  {
    wal := OpenLog(file, bak, checkpoint, history, start, tail);
    store := new RecordStore.Open(image, limit, saved);
    newImage, newCheckpoint, newSaved, newFlushed := image, checkpoint, saved, flushed;
    var replay := ReplayFile(store, file, checkpoint, history, flushed, start, tail);
    applied := replay.outcome;
    if applied == Done && replay.count > 0 {
      newImage := store.ToImage();
      FilesReplayed(file, bak, image, limit, saved, checkpoint, history, flushed, start, tail, newImage);
      newCheckpoint, newSaved, newFlushed := replay.highest, State(history), |history|;
    }
  }

  lemma PutIsLogged(key: uint64, value: Bytes)
    ensures |PutLE(key, 8)| == 8 && OpsOf(OP_PUT, PutLE(key, 8), value) == Some([Put(key, value)])
  {
    OpsOfLogged(ApiPut(key, value));
  }

  lemma DeleteIsLogged(key: uint64)
    ensures |PutLE(key, 8)| == 8 && OpsOf(OP_DELETE, PutLE(key, 8), []) == Some([Delete(key)])
  {
    OpsOfLogged(ApiDelete(key, []));
  }

  /** The payload of a batch, and what recovery would make of it. */
  method BatchPayload(ops: seq<ApiOp>) returns (payload: Bytes)
    requires ops != [] && SizesFit(ops)
    ensures HEADER_SIZE + |payload| <= MAX_FRAME_SIZE <==> FrameFits(ops)
    ensures FrameFits(ops) ==> OpsOf(OP_BATCH, [], payload) == Some(OpsOfApi(ops)) && AllStorable(OpsOfApi(ops))
  {
    var encoded := EncodeBatchPayload(LoggedAll(ops));
    payload := encoded.value;
    CheckedIsLogged(ops);
    if HEADER_SIZE + |payload| <= MAX_FRAME_SIZE {
      LoggedFits(ops);
      BatchReplaysAsCommitted(ops);
      ApiStorable(ops);
    }
  }

  class StoredEngine {
    var store: RecordStore
    var wal: WAL
    var image: Image
    var checkpointLSN: nat
    const limit: nat
    /** Set when the log or the store refuses a write halfway; every write is refused from then on. */
    var halted: bool

    /** What the data file holds, and the committed records, as in DurableEngine. */
    ghost var saved: Contents
    ghost var history: seq<Record>
    /** What the committed records come to. */
    ghost var committed: Contents
    ghost var flushed: nat
    ghost var start: nat
    ghost var tail: Bytes

    /** A restart would find everything committed. */
    ghost predicate Durable()
      reads `wal, `image, `checkpointLSN, `saved, `history, `committed, `flushed, `start, `tail, wal
    {
      FilesKeep(wal.file, wal.bak, wal.currentLSN, image, limit, saved, checkpointLSN, history, flushed, start, tail)
      && committed == State(history)
    }

    /** The store in memory holds everything committed. */
    ghost predicate InStep()
      reads `store, `committed, store, store.tree
    {
      store.Valid() && store.limit == limit && store.values == committed
    }

    ghost predicate Valid()
      reads this, wal, store, store.tree
    {
      Durable() && InStep()
    }

    constructor (limit: nat)
      requires 3 <= limit <= TWO_TO_64
      ensures Valid() && history == [] && committed == map[] && tail == [] && !halted && wal.currentLSN == 0
      ensures fresh(wal) && fresh(store) && fresh(store.tree)
    {
      var first := new RecordStore(limit);
      var blank := first.ToImage();
      NewFiles(blank, limit);
      store, image, this.limit, checkpointLSN, halted := first, blank, limit, 0, false;
      wal := new WAL([], None, 0);
      saved, history, committed, flushed, start, tail := map[], [], map[], 0, 0, [];
    }

    method Get(key: uint64) returns (value: Option<Bytes>)
      requires Valid()
      ensures value == if key in committed then Some(committed[key]) else None
    {
      value := store.Get(key);
    }

    /** Logs a record; a frame the log refuses halts the engine. */
    method Append(kind: byte, key: Bytes, value: Bytes) returns (lsn: Option<nat>)
      requires Durable() && !halted && |key| <= 8 && wal.currentLSN + 1 < TWO_TO_64
      requires HEADER_SIZE + |key| + |value| <= MAX_FRAME_SIZE ==>
        OpsOf(kind, key, value).Some? && AllStorable(OpsOf(kind, key, value).value)
      modifies `halted, `history, `committed, wal
      ensures tail == [] ==> Durable()
      ensures lsn.Some? <==> HEADER_SIZE + |key| + |value| <= MAX_FRAME_SIZE
      ensures halted <==> lsn.None?
      ensures history == if lsn.Some? then old(history) + [Record(lsn.value, kind, key, value)] else old(history)
      ensures lsn.None? ==> Durable()
      ensures committed == if lsn.Some? then AllApplied(old(committed), OpsOf(kind, key, value).value)
        else old(committed)
    {
      var r := Record(wal.currentLSN + 1, kind, key, value);
      lsn := wal.Write(kind, key, value);
      if lsn.None? {
        halted := true;
        return;
      }
      FilesCommit(old(wal.file), wal.bak, image, limit, saved, checkpointLSN, history, flushed, start, tail, r);
      history, committed := history + [r], AllApplied(committed, OpsIn(r));
    }

    /** Logs a record and applies it to the store. A store that runs out of pages halfway halts the engine; the record
        stays logged, and a restart replays it. */
    method Commit(kind: byte, key: Bytes, value: Bytes) returns (lsn: Option<nat>, applied: Outcome)
      requires Valid() && !halted && |key| <= 8 && wal.currentLSN + 1 < TWO_TO_64
      requires HEADER_SIZE + |key| + |value| <= MAX_FRAME_SIZE ==>
        OpsOf(kind, key, value).Some? && AllStorable(OpsOf(kind, key, value).value)
      modifies `halted, `history, `committed, wal, store, store.tree
      ensures tail == [] ==> Durable()
      ensures lsn.Some? <==> HEADER_SIZE + |key| + |value| <= MAX_FRAME_SIZE
      ensures history == if lsn.Some? then old(history) + [Record(lsn.value, kind, key, value)] else old(history)
      ensures lsn.None? ==> applied == Done && Durable()
      ensures applied == Done ==> InStep() && (halted <==> lsn.None?)
      ensures applied == Halted ==> halted
      ensures committed == if lsn.Some? then AllApplied(old(committed), OpsOf(kind, key, value).value)
        else old(committed)
      ensures lsn.Some? ==>
        Explains(applied, store.tree.numPages, limit, store.lost, old(committed), OpsOf(kind, key, value).value)
      ensures applied == TreeBroken ==> store.tree.Broken()
    {
      lsn := Append(kind, key, value);
      if lsn.None? {
        return lsn, Done;
      }
      label Logged:
      applied := ApplyLogged(OpsOf(kind, key, value).value);
      FilesStay@Logged();
    }

    /** Applying to the store leaves the files alone. */
    twostate lemma FilesStay()
      requires unchanged(`wal, `image, `checkpointLSN, `saved, `history, `committed, `flushed, `start, `tail)
      requires unchanged(wal)
      ensures Durable() == old(Durable())
    {
    }

    method ApplyLogged(ops: seq<Op>) returns (applied: Outcome)
      requires store.Valid() && AllStorable(ops) && !halted
      modifies `halted, store, store.tree
      ensures applied == Done ==> store.Valid() && store.values == AllApplied(old(store.values), ops)
      ensures halted <==> applied == Halted
      ensures Explains(applied, store.tree.numPages, store.limit, store.lost, old(store.values), ops)
      ensures applied == TreeBroken ==> store.tree.Broken()
    {
      applied := store.ApplyAll(ops);
      halted := applied == Halted;
    }

    /** The same for a single write, where what decides is the store as it is. */
    method ApplySingle(op: Op) returns (applied: Outcome)
      requires store.Valid() && Storable(op) && !halted
      modifies `halted, store, store.tree
      ensures applied == Done ==> store.Valid() && store.values == Applied(old(store.values), op)
      ensures (halted <==> applied == Halted) && applied != ConditionFailed
      ensures applied == TreeBroken ==> store.tree.Broken()
      ensures applied == TreeBroken <==>
        op.Delete? && op.key in old(store.values) && !old(store.DeleteKeepsTree(op.key))
      ensures applied == Halted ==> op.Put? && store.tree.numPages >= store.limit
      ensures applied == Halted ==> HasNoRoom(old(store.pages), store.lost, op.value) || old(store.LeafIsFull(op.key))
    {
      applied := store.ApplyOne(op);
      halted := applied == Halted;
    }

    /** A single write is logged and applied. */
    method CommitSingle(kind: byte, key: Bytes, value: Bytes, op: Op) returns (lsn: nat, applied: Outcome)
      requires Valid() && !halted && |key| <= 8 && wal.currentLSN + 1 < TWO_TO_64
      requires HEADER_SIZE + |key| + |value| <= MAX_FRAME_SIZE && OpsOf(kind, key, value) == Some([op]) && Storable(op)
      modifies `halted, `history, `committed, wal, store, store.tree
      ensures tail == [] ==> Durable()
      ensures history == old(history) + [Record(lsn, kind, key, value)] && committed == Applied(old(committed), op)
      ensures applied == Done ==> InStep()
      ensures (halted <==> applied == Halted) && applied != ConditionFailed
      ensures applied == TreeBroken ==> store.tree.Broken()
      ensures applied == TreeBroken <==> op.Delete? && op.key in old(committed) && !old(store.DeleteKeepsTree(op.key))
      ensures applied == Halted ==> op.Put? && store.tree.numPages >= limit
      ensures applied == Halted ==> HasNoRoom(old(store.pages), store.lost, op.value) || old(store.LeafIsFull(op.key))
    {
      AppliedOne(committed, op);
      var logged := Append(kind, key, value);
      lsn := logged.value;
      label Logged:
      applied := ApplySingle(op);
      FilesStay@Logged();
    }

    /** A put is logged and applied. It is applied unless the file is full and the value has no place in it, or a leaf
        would have to be split for it. */
    method Put(key: uint64, value: Bytes) returns (outcome: WriteOutcome, applied: Outcome)
      requires Valid() && wal.currentLSN + 1 < TWO_TO_64
      modifies this, wal, store, store.tree
      ensures wal == old(wal) && store == old(store) && tail == old(tail) && (tail == [] ==> Durable())
      ensures outcome.ValueTooLarge? <==> |value| > MAX_VALUE_SIZE
      ensures outcome.EngineHalted? <==> |value| <= MAX_VALUE_SIZE && old(halted)
      ensures committed == if outcome.Written? then old(committed)[key := value] else old(committed)
      ensures |history| == |old(history)| + if outcome.Written? then 1 else 0
      ensures applied == Done ==> InStep() && halted == old(halted)
      ensures applied == Done || (applied == Halted && halted && outcome.Written?)
      ensures applied == Halted ==> store.tree.numPages >= limit
      ensures applied == Halted ==> HasNoRoom(old(store.pages), store.lost, value) || old(store.LeafIsFull(key))
    {
      if |value| > MAX_VALUE_SIZE {
        return ValueTooLarge, Done;
      }
      if halted {
        return EngineHalted, Done;
      }
      PutIsLogged(key, value);
      var lsn;
      lsn, applied := CommitSingle(OP_PUT, PutLE(key, 8), value, RecordStores.Put(key, value));
      outcome := Written(lsn);
    }

    /** A deletion is logged and applied: always, except that the tree may not survive it. */
    method Delete(key: uint64) returns (outcome: WriteOutcome, applied: Outcome)
      requires Valid() && wal.currentLSN + 1 < TWO_TO_64
      modifies this, wal, store, store.tree
      ensures wal == old(wal) && store == old(store) && tail == old(tail) && (tail == [] ==> Durable())
      ensures outcome == EngineHalted || outcome.Written?
      ensures outcome.EngineHalted? <==> old(halted)
      ensures committed == if outcome.Written? then old(committed) - {key as Key} else old(committed)
      ensures |history| == |old(history)| + if outcome.Written? then 1 else 0
      ensures applied == Done ==> InStep()
      ensures halted == old(halted) && (applied == Done || applied == TreeBroken)
      ensures applied == TreeBroken <==> !old(halted) && key in old(committed) && !old(store.DeleteKeepsTree(key))
      ensures applied == TreeBroken ==> store.tree.Broken()
    {
      if halted {
        return EngineHalted, Done;
      }
      DeleteIsLogged(key);
      var lsn;
      lsn, applied := CommitSingle(OP_DELETE, PutLE(key, 8), [], RecordStores.Delete(key));
      outcome := Written(lsn);
    }

    /** A batch is decided on what is committed, logged and applied: applied unless the file is full and one of its puts
        has no place in it, or the tree does not survive one of its deletions. */
    method BatchWriteIf(ops: seq<ApiOp>, conds: seq<(uint64, Condition)>)
      returns (outcome: BatchOutcome, applied: Outcome)
      requires Valid() && wal.currentLSN + 1 < TWO_TO_64
      modifies this, wal, store, store.tree
      ensures wal == old(wal) && store == old(store) && tail == old(tail) && (tail == [] ==> Durable())
      ensures outcome == Verdict(old(committed), old(halted), ops, conds)
      ensures outcome == Committed ==>
        forall i :: 0 <= i < |conds| && conds[i].1 == Absent ==> conds[i].0 !in old(committed)
      ensures committed == if outcome == Committed then AllApplied(old(committed), OpsOfApi(ops)) else old(committed)
      ensures |history| == |old(history)| + if outcome == Committed then 1 else 0
      ensures applied == Done ==> InStep() && halted == (old(halted) || outcome == LogRefused)
      ensures applied == Halted ==> halted
      ensures outcome != Committed ==> applied == Done
      ensures Explains(applied, store.tree.numPages, limit, store.lost, old(committed), OpsOfApi(ops))
      ensures applied == TreeBroken ==> store.tree.Broken()
    {
      if ops == [] {
        return EmptyBatch, Done;
      }
      var e := CheckValueSizes(ops);
      if e.Some? {
        assert e.value.RecordTooLarge? || e.value.BatchTooLarge?;
        return SizeRefused, Done;
      }
      if halted {
        return HaltRefused, Done;
      }
      var met := store.CheckConditions(conds);
      if !met {
        return ConditionRefused, Done;
      }
      AllMetIs(committed, conds);
      outcome, applied := LogBatch(ops);
    }

    method LogBatch(ops: seq<ApiOp>) returns (outcome: BatchOutcome, applied: Outcome)
      requires Valid() && !halted && wal.currentLSN + 1 < TWO_TO_64 && ops != [] && SizesFit(ops)
      modifies this, wal, store, store.tree
      ensures wal == old(wal) && store == old(store) && tail == old(tail) && (tail == [] ==> Durable())
      ensures outcome == if FrameFits(ops) then Committed else LogRefused
      ensures committed == if outcome == Committed then AllApplied(old(committed), OpsOfApi(ops)) else old(committed)
      ensures |history| == |old(history)| + if outcome == Committed then 1 else 0
      ensures applied == Done ==> InStep() && (halted <==> outcome == LogRefused)
      ensures applied == Halted ==> halted
      ensures outcome != Committed ==> applied == Done
      ensures Explains(applied, store.tree.numPages, limit, store.lost, old(committed), OpsOfApi(ops))
      ensures applied == TreeBroken ==> store.tree.Broken()
    {
      var payload := BatchPayload(ops);
      var lsn;
      lsn, applied := Commit(OP_BATCH, [], payload);
      outcome := if lsn.Some? then Committed else LogRefused;
    }

    /** Every page goes to the data file, and the meta page names the last committed record if asked to. */
    method Flush(withMeta: bool)
      requires Valid()
      modifies this
      ensures Valid() && wal == old(wal) && store == old(store)
      ensures history == old(history) && committed == old(committed) && tail == old(tail) && halted == old(halted)
      ensures start == old(start)
      ensures saved == committed && checkpointLSN == if withMeta then wal.currentLSN else old(checkpointLSN)
    {
      var flushedImage := store.ToImage();
      FilesFlush(wal.file, wal.bak, wal.currentLSN, image, limit, saved, checkpointLSN, history, flushed, start, tail,
                 flushedImage);
      Save(flushedImage, if withMeta then wal.currentLSN else checkpointLSN, committed, |history|);
    }

    method Save(newImage: Image, newCheckpoint: nat, ghost newSaved: Contents, ghost newFlushed: nat)
      modifies `image, `checkpointLSN, `saved, `flushed
      ensures image == newImage && checkpointLSN == newCheckpoint && saved == newSaved && flushed == newFlushed
    {
      image, checkpointLSN, saved, flushed := newImage, newCheckpoint, newSaved, newFlushed;
    }

    method Checkpoint()
      requires Valid()
      modifies this, wal
      ensures Valid() && wal == old(wal) && store == old(store)
      ensures history == old(history) && committed == old(committed) && halted == old(halted) && tail == []
      ensures wal.file == []
    {
      Flush(true);
      Rotate();
    }

    method Rotate()
      requires Durable() && checkpointLSN == wal.currentLSN
      modifies `start, `tail, wal
      ensures Durable() && tail == [] && wal.file == []
    {
      FilesRotate(wal.file, wal.bak, wal.currentLSN, image, limit, saved, checkpointLSN, history, flushed, start, tail);
      wal.Checkpoint();
      start, tail := |history|, [];
    }

    method CrashInRotation()
      requires Valid()
      modifies wal
      ensures Valid() && wal.bak == None
    {
      wal.RemoveArchive();
    }

    /** The process dies, perhaps with part of a record at the end of the log, and is started again. Halted or not,
        everything committed is back once replay is done; where the file has no room for it, the files stay as they are.
        */
    method CrashAndReopen(partial: Bytes) returns (applied: Outcome)
      requires Durable() && IsTail(partial) && (tail == [] || partial == [])
      modifies this
      ensures fresh(wal) && fresh(store) && fresh(store.tree)
      ensures history == old(history) && committed == old(committed) && tail == old(tail) + partial
      ensures wal.currentLSN == |history|
      ensures applied == Done ==> Valid() && !halted
      ensures applied == Halted ==> Durable()
      ensures Explains(applied, store.tree.numPages, limit, store.lost, old(saved),
                       Changes(history[old(checkpointLSN)..]))
      ensures applied == TreeBroken ==> store.tree.Broken()
      ensures applied != Done ==> saved == old(saved) && checkpointLSN == old(checkpointLSN)
    {
      FilesCrash(wal.file, wal.bak, wal.currentLSN, image, limit, saved, checkpointLSN, history, flushed, start, tail,
                 partial);
      var newStore, newWal, outcome, newImage, newCheckpoint, newSaved, newFlushed :=
        RecoverStore(wal.file + partial, wal.bak, image, limit, checkpointLSN, saved, history, flushed, start,
                     tail + partial);
      applied := outcome;
      Restart(newStore, newWal, newImage, newCheckpoint, newSaved, newFlushed, tail + partial);
    }

    method Restart(newStore: RecordStore, newWal: WAL, newImage: Image, newCheckpoint: nat, ghost newSaved: Contents,
                   ghost newFlushed: nat, ghost newTail: Bytes)
      modifies this
      ensures store == newStore && wal == newWal && image == newImage && checkpointLSN == newCheckpoint && !halted
      ensures saved == newSaved && history == old(history) && committed == old(committed) && flushed == newFlushed
      ensures start == old(start) && tail == newTail
    {
      store, wal, image, checkpointLSN, halted := newStore, newWal, newImage, newCheckpoint, false;
      saved, flushed, tail := newSaved, newFlushed, newTail;
    }
  }
}
