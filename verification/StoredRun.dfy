/** Whole runs of the engine over the record store: as long as the store goes along, they are runs over a map. */
module StoredRuns {
  import opened Types
  import opened RecordStores
  import opened WalRecords
  import opened WalBatches
  import opened Recoveries
  import opened StoredEngines
  import opened RecoveryRuns

  ghost function Seen(engine: StoredEngine): Outside
    reads engine
  {
    Outside(engine.committed, engine.halted)
  }

  method WriteSingle(engine: StoredEngine, e: Event) returns (applied: Outcome)
    requires engine.Valid() && engine.tail == [] && (e.DoPut? || e.DoDelete?) && |engine.history| + 1 < TWO_TO_64
    modifies engine, engine.wal, engine.store, engine.store.tree
    ensures engine.wal == old(engine.wal) && engine.store == old(engine.store) && engine.tail == old(engine.tail)
    ensures engine.Durable() && |engine.history| <= |old(engine.history)| + 1
    ensures engine.committed == RecoveryRuns.After(old(Seen(engine)), e).contents
    ensures applied == Done ==> engine.InStep() && engine.halted == RecoveryRuns.After(old(Seen(engine)), e).halted
    ensures applied == Halted ==> engine.halted && engine.store.tree.numPages >= engine.limit && !e.DoDelete?
    ensures applied == TreeBroken ==> engine.store.tree.Broken() && !e.DoPut?
    ensures applied != ConditionFailed
  {
    match e {
      case DoPut(key, value) =>
        var outcome;
        outcome, applied := engine.Put(key, value);
      case DoDelete(key) =>
        var outcome;
        outcome, applied := engine.Delete(key);
    }
  }

  lemma AfterBatchIs(o: Outside, ops: seq<ApiOp>, conds: seq<(uint64, Condition)>)
    ensures var outcome := Verdict(o.contents, o.halted, ops, conds);
      && RecoveryRuns.After(o, DoBatch(ops, conds)).halted == (o.halted || outcome == LogRefused)
      && RecoveryRuns.After(o, DoBatch(ops, conds)).contents ==
           if outcome == Committed then AllApplied(o.contents, OpsOfApi(ops)) else o.contents
  {
  }

  method WriteBatch(engine: StoredEngine, e: Event) returns (applied: Outcome)
    requires engine.Valid() && engine.tail == [] && e.DoBatch? && |engine.history| + 1 < TWO_TO_64
    modifies engine, engine.wal, engine.store, engine.store.tree
    ensures engine.wal == old(engine.wal) && engine.store == old(engine.store) && engine.tail == old(engine.tail)
    ensures engine.Durable() && |engine.history| <= |old(engine.history)| + 1
    ensures engine.committed == RecoveryRuns.After(old(Seen(engine)), e).contents
    ensures applied == Done ==> engine.InStep() && engine.halted == RecoveryRuns.After(old(Seen(engine)), e).halted
    ensures applied == Halted ==> engine.halted && engine.store.tree.numPages >= engine.limit && !e.DoDelete?
    ensures applied == TreeBroken ==> engine.store.tree.Broken() && !e.DoPut?
    ensures applied != ConditionFailed
  {
    AfterBatchIs(Seen(engine), e.ops, e.conds);
    var outcome;
    outcome, applied := engine.BatchWriteIf(e.ops, e.conds);
  }

  method Write(engine: StoredEngine, e: Event) returns (applied: Outcome)
    requires engine.Valid() && engine.tail == [] && Commits(e) && |engine.history| + 1 < TWO_TO_64
    modifies engine, engine.wal, engine.store, engine.store.tree
    ensures engine.wal == old(engine.wal) && engine.store == old(engine.store) && engine.tail == old(engine.tail)
    ensures engine.Durable() && |engine.history| <= |old(engine.history)| + 1
    ensures engine.committed == RecoveryRuns.After(old(Seen(engine)), e).contents
    ensures applied == Done ==> engine.InStep() && engine.halted == RecoveryRuns.After(old(Seen(engine)), e).halted
    ensures applied == Halted ==> engine.halted && engine.store.tree.numPages >= engine.limit && !e.DoDelete?
    ensures applied == TreeBroken ==> engine.store.tree.Broken() && !e.DoPut?
    ensures applied != ConditionFailed
  {
    if e.DoBatch? {
      applied := WriteBatch(engine, e);
    } else {
      applied := WriteSingle(engine, e);
    }
  }

  lemma NothingAdded(tail: Bytes, partial: Bytes)
    ensures tail + partial == [] <==> tail == [] && partial == []
  {
  }

  /** Flushes, rotations and restarts leave what is committed as it is. */
  method Maintain(engine: StoredEngine, e: Event) returns (applied: Outcome)
    requires engine.Valid() && Allowed(engine.tail == [], e) && !Commits(e)
    modifies engine, engine.wal, engine.store, engine.store.tree
    ensures engine.wal == old(engine.wal) || fresh(engine.wal)
    ensures engine.store == old(engine.store) || fresh(engine.store)
    ensures engine.store.tree == old(engine.store.tree) || fresh(engine.store.tree)
    ensures engine.history == old(engine.history) && engine.committed == old(engine.committed)
    ensures applied == Done ==> engine.Valid() && engine.halted == (old(engine.halted) && !e.CrashWith?)
    ensures applied == Done ==> (engine.tail == []) == CleanAfter(old(engine.tail == []), e)
    ensures applied == Halted ==> engine.Durable()
    ensures applied == Halted ==> engine.store.tree.numPages >= engine.limit
    ensures applied == TreeBroken ==> engine.store.tree.Broken()
    ensures applied != ConditionFailed && (!e.CrashWith? ==> applied == Done)
  {
    applied := Done;
    match e {
      case DoFlushPages =>
        engine.Flush(false);
      case DoFlushWithMeta =>
        engine.Flush(true);
      case DoCheckpoint =>
        engine.Checkpoint();
      case CrashHalfRotated =>
        engine.CrashInRotation();
      case CrashWith(partial) =>
        NothingAdded(engine.tail, partial);
        applied := engine.CrashAndReopen(partial);
    }
  }

  lemma AfterMaintain(o: Outside, e: Event)
    requires !Commits(e)
    ensures RecoveryRuns.After(o, e) == Outside(o.contents, o.halted && !e.CrashWith?)
  {
  }

  /** One event; anything but Done means that the store did not go along with a write or a replay. What is committed is
      as over a map in any case. */
  method Perform(engine: StoredEngine, e: Event) returns (applied: Outcome)
    requires engine.Valid() && Allowed(engine.tail == [], e) && |engine.history| + 1 < TWO_TO_64
    modifies engine, engine.wal, engine.store, engine.store.tree
    ensures engine.wal == old(engine.wal) || fresh(engine.wal)
    ensures engine.store == old(engine.store) || fresh(engine.store)
    ensures engine.store.tree == old(engine.store.tree) || fresh(engine.store.tree)
    ensures |engine.history| <= |old(engine.history)| + 1
    ensures engine.committed == RecoveryRuns.After(old(Seen(engine)), e).contents
    ensures applied == Done ==> engine.Valid() && Seen(engine) == RecoveryRuns.After(old(Seen(engine)), e)
    ensures applied == Done ==> (engine.tail == []) == CleanAfter(old(engine.tail == []), e)
    ensures applied == Halted || Commits(e) ==> engine.Durable()
    ensures applied != Done ==> engine.store.tree.numPages >= engine.limit || engine.store.tree.Broken()
    ensures applied != Done ==> e.CrashWith? || Commits(e)
  {
    if Commits(e) {
      applied := Write(engine, e);
    } else {
      AfterMaintain(Seen(engine), e);
      applied := Maintain(engine, e);
    }
  }

  /** Performs the events until the store does not go along with one; done is how many went through. That is all of them
      as long as the file has pages left and the deletions leave a tree. */
  method Run(engine: StoredEngine, events: seq<Event>) returns (done: nat)
    requires engine.Valid() && AllAllowed(engine.tail == [], events) && |engine.history| + |events| < TWO_TO_64
    modifies engine, engine.wal, engine.store, engine.store.tree
    ensures done <= |events|
    ensures done == |events| ==> engine.Valid() && Seen(engine) == AfterAll(old(Seen(engine)), events)
    ensures done == |events| || engine.store.tree.numPages >= engine.limit || engine.store.tree.Broken()
    decreases |events|
  {
    if events == [] {
      return 0;
    }
    var applied := Perform(engine, events[0]);
    if applied != Done {
      return 0;
    }
    var rest := Run(engine, events[1..]);
    done := rest + 1;
  }

  /** From a new file on, whatever flushes, rotations, crashes and restarts there were: if the file still has pages left
      and the tree is still one, a value read is the one the committed operations leave. */
  method ReadAfter(limit: nat, events: seq<Event>, key: uint64)
    returns (done: nat, value: Option<Bytes>, engine: StoredEngine)
    requires 3 <= limit <= TWO_TO_64 && AllAllowed(true, events) && |events| < TWO_TO_64
    ensures var contents := AfterAll(Outside(map[], false), events).contents;
      done == |events| ==> value == if key in contents then Some(contents[key]) else None
    ensures done == |events| || engine.store.tree.numPages >= engine.limit || engine.store.tree.Broken()
  {
    engine := new StoredEngine(limit);
    value := None;
    done := Run(engine, events);
    if done == |events| {
      value := engine.Get(key);
    }
  }
}
