/** Whole runs of the engine: commits, flushes, rotations, crashes and reopenings in any order. */
module RecoveryRuns {
  import opened Types
  import opened RecordStores
  import opened WalRecords
  import opened WalBatches
  import opened Recoveries

  datatype Event =
    | DoPut(key: uint64, value: Bytes)
    | DoDelete(key: uint64)
    | DoBatch(ops: seq<ApiOp>, conds: seq<(uint64, Condition)>)
    | DoFlushPages
    | DoFlushWithMeta
    | DoCheckpoint
    | CrashHalfRotated
    | CrashWith(partial: Bytes)

  /** What can be told from outside: the contents, and whether the engine refuses every write until it is started again.
      */
  datatype Outside = Outside(contents: Contents, halted: bool)

  /** What an event does: only a commit changes the contents, only a batch whose frame is refused halts the engine, and
      only a crash ends the halt. */
  function After(o: Outside, e: Event): Outside {
    match e
    case DoPut(key, value) => if o.halted || |value| > MAX_VALUE_SIZE then o
      else o.(contents := o.contents[key := value])
    case DoDelete(key) => if o.halted then o else o.(contents := o.contents - {key as Key})
    case DoBatch(ops, conds) => AfterBatch(o, ops, Verdict(o.contents, o.halted, ops, conds))
    case CrashWith(_) => o.(halted := false)
    case _ => o
  }

  function AfterBatch(o: Outside, ops: seq<ApiOp>, outcome: BatchOutcome): Outside {
    match outcome
    case Committed => o.(contents := AllApplied(o.contents, OpsOfApi(ops)))
    case LogRefused => o.(halted := true)
    case _ => o
  }

  function AfterAll(o: Outside, events: seq<Event>): Outside
    decreases |events|
  {
    if events == [] then o else AfterAll(After(o, events[0]), events[1..])
  }

  predicate Commits(e: Event) {
    e.DoPut? || e.DoDelete? || e.DoBatch?
  }

  /** A crash may cut off a record behind a clean log; before the next commit a checkpoint must then rotate the log. */
  ghost predicate Allowed(clean: bool, e: Event) {
    && (Commits(e) ==> clean)
    && (e.CrashWith? ==> IsTail(e.partial) && (clean || e.partial == []))
  }

  predicate CleanAfter(clean: bool, e: Event) {
    e.DoCheckpoint? || (clean && (e.CrashWith? ==> e.partial == []))
  }

  ghost predicate AllAllowed(clean: bool, events: seq<Event>)
    decreases |events|
  {
    events == [] || (Allowed(clean, events[0]) && AllAllowed(CleanAfter(clean, events[0]), events[1..]))
  }

  function Seen(engine: DurableEngine): Outside
    reads engine
  {
    Outside(engine.memory, engine.halted)
  }

  method Perform(engine: DurableEngine, e: Event)
    requires engine.Valid() && Allowed(engine.tail == [], e) && |engine.history| + 1 < TWO_TO_64
    modifies engine, engine.wal
    ensures engine.Valid() && (engine.wal == old(engine.wal) || fresh(engine.wal))
    ensures Seen(engine) == After(old(Seen(engine)), e) && |engine.history| <= |old(engine.history)| + 1
    ensures (engine.tail == []) == CleanAfter(old(engine.tail == []), e)
  {
    match e {
      case DoPut(key, value) =>
        var outcome := engine.LogPut(key, value);
      case DoDelete(key) =>
        var outcome := engine.LogDelete(key);
      case DoBatch(ops, conds) =>
        var outcome := engine.BatchWriteIf(ops, conds);
      case DoFlushPages =>
        engine.FlushPages();
      case DoFlushWithMeta =>
        engine.FlushWithMeta();
      case DoCheckpoint =>
        engine.Checkpoint();
      case CrashHalfRotated =>
        engine.CrashInRotation();
      case CrashWith(partial) =>
        engine.CrashAndReopen(partial);
    }
  }

  /** However often the engine flushes, rotates, crashes and reopens, its contents are those of the committed operations
      in order, and it refuses writes exactly between a refused frame and the next start. */
  method Run(engine: DurableEngine, events: seq<Event>)
    requires engine.Valid() && AllAllowed(engine.tail == [], events) && |engine.history| + |events| < TWO_TO_64
    modifies engine, engine.wal
    ensures engine.Valid() && Seen(engine) == AfterAll(old(Seen(engine)), events)
    decreases |events|
  {
    if events != [] {
      Perform(engine, events[0]);
      Run(engine, events[1..]);
    }
  }

  method RunFromEmpty(events: seq<Event>) returns (o: Outside)
    requires AllAllowed(true, events) && |events| < TWO_TO_64
    ensures o == AfterAll(Outside(map[], false), events)
  {
    var engine := new DurableEngine();
    Run(engine, events);
    o := Seen(engine);
  }

  /** After a refused frame no write changes the contents until the engine is started again, whatever else happens. */
  lemma {:induction false} HaltedUntilReopened(o: Outside, events: seq<Event>)
    requires o.halted && forall i :: 0 <= i < |events| ==> !events[i].CrashWith?
    ensures AfterAll(o, events) == o
    decreases |events|
  {
    if events != [] {
      assert After(o, events[0]) == o;
      HaltedUntilReopened(o, events[1..]);
    }
  }

  lemma AfterFirst(o: Outside, e: Event, events: seq<Event>)
    ensures AfterAll(o, [e] + events) == AfterAll(After(o, e), events)
  {
    assert ([e] + events)[1..] == events;
  }

  lemma BatchRefused(m: Contents, key: uint64, carried: Bytes)
    requires |carried| > MAX_FRAME_SIZE
    ensures Verdict(m, false, [ApiDelete(key, carried)], []) == LogRefused
    ensures After(Outside(m, false), DoBatch([ApiDelete(key, carried)], [])) == Outside(m, true)
  {
    var ops := [ApiDelete(key, carried)];
    assert ops[..|ops| - 1] == [];
    assert CheckedSize(ops) == CheckedSize([]) + BATCH_OP_OVERHEAD;
    assert DeletedBytes(ops) == DeletedBytes([]) + |carried|;
  }

  /** A batch can pass every check of its sizes and yet halt the engine over the value a delete carries; no write after
      it is accepted before a restart. */
  lemma BatchHalts(m: Contents, key: uint64, carried: Bytes, events: seq<Event>)
    requires |carried| > MAX_FRAME_SIZE && forall i :: 0 <= i < |events| ==> !events[i].CrashWith?
    ensures AfterAll(Outside(m, false), [DoBatch([ApiDelete(key, carried)], [])] + events) == Outside(m, true)
  {
    BatchRefused(m, key, carried);
    HaltedUntilReopened(Outside(m, true), events);
    AfterFirst(Outside(m, false), DoBatch([ApiDelete(key, carried)], []), events);
  }
}
