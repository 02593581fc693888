/** The follower's receive loop and its own engine: what it holds while it runs, and after it is started again. */
module Followers {
  import opened Types
  import opened Sequences
  import opened Codec
  import opened RecordStores
  import opened WalRecords
  import opened WalBatches
  import opened WalLogs
  import opened Recoveries
  import Broadcasts
  import Replications
  import ReplicationSafety

  // ---------- what a replicated record does ----------

  /** What a follower makes of one operation; short keys and other kinds, a batch inside a batch among them, are
      skipped. */
  function FlatOp(op: BatchOp): seq<Op> {
    if |op.key| < 8 then []
    else if op.kind == OP_PUT then [Put(GetLE(op.key[..8]), op.value)]
    else if op.kind == OP_DELETE then [Delete(GetLE(op.key[..8]))]
    else []
  }

  function Effects(kind: byte, key: Bytes, value: Bytes): Option<seq<Op>> {
    if kind == OP_BATCH then
      match DecodedBatch(value) case None => None case Some(bops) => Some(FlatMap(FlatOp, bops))
    else Some(FlatOp(BatchOp(kind, key, value)))
  }

  function EffectsIn(m: Record): seq<Op> {
    match Effects(m.kind, m.key, m.value) case None => [] case Some(ops) => ops
  }

  /** Single writes go through the follower's own log; batches are applied without it. */
  predicate IsRelogged(kind: byte, key: Bytes) {
    (kind == OP_PUT || kind == OP_DELETE) && |key| >= 8
  }

  function RelogSize(kind: byte, value: Bytes): nat {
    HEADER_SIZE + 8 + if kind == OP_PUT then |value| else 0
  }

  /** The engine takes the record in: it has not halted, and the log or the decoder does not refuse it. */
  predicate TakesIn(halted: bool, kind: byte, key: Bytes, value: Bytes) {
    if IsRelogged(kind, key) then !halted && RelogSize(kind, value) <= MAX_FRAME_SIZE
    else kind == OP_BATCH ==> DecodedBatch(value).Some? && !halted
  }

  lemma AllAppliedThen(m: Contents, ops: seq<Op>, op: Op)
    ensures AllApplied(m, ops + [op]) == Applied(AllApplied(m, ops), op)
  {
    assert (ops + [op])[..|ops|] == ops;
  }

  // ---------- the follower's engine ----------

  class ReplicaEngine {
    var memory: Contents
    var halted: bool
    const wal: WAL

    constructor (memory: Contents, wal: WAL)
      ensures this.memory == memory && this.wal == wal && !halted
    {
      this.memory, this.wal, halted := memory, wal, false;
    }

    /** Logs a single write under the follower's own next number and applies it; a frame the log refuses halts the
        engine. */
    method LogAndApply(kind: byte, key: Bytes, value: Bytes) returns (ok: bool)
      requires IsRelogged(kind, key)
      modifies this, wal
      ensures ok <==> TakesIn(old(halted), kind, key, value)
      ensures memory == if ok then AllApplied(old(memory), FlatOp(BatchOp(kind, key, value))) else old(memory)
      ensures halted == (old(halted) || RelogSize(kind, value) > MAX_FRAME_SIZE)
      ensures wal.currentLSN == old(wal.currentLSN) + if ok then 1 else 0
    {
      if halted {
        return false;
      }
      var k := GetLE(key[..8]);
      var lsn := wal.Write(kind, PutLE(k, 8), if kind == OP_PUT then value else []);
      if lsn.None? {
        halted := true;
        return false;
      }
      var op := if kind == OP_PUT then Put(k, value) else Delete(k);
      AllAppliedThen(memory, [], op);
      assert [] + [op] == [op];
      memory := Applied(memory, op);
      return true;
    }

    method ApplyAll(bops: seq<BatchOp>)
      modifies `memory
      ensures memory == AllApplied(old(memory), FlatMap(FlatOp, bops))
    {
      for i := 0 to |bops|
        invariant memory == AllApplied(old(memory), FlatMap(FlatOp, bops[..i]))
      {
        assert bops[..i + 1] == bops[..i] + [bops[i]];
        FlatMapConcat(FlatOp, bops[..i], [bops[i]]);
        FlatMapOne(FlatOp, bops[i]);
        if |bops[i].key| >= 8 && (bops[i].kind == OP_PUT || bops[i].kind == OP_DELETE) {
          var k := GetLE(bops[i].key[..8]);
          var op := if bops[i].kind == OP_PUT then Put(k, bops[i].value) else Delete(k);
          AllAppliedThen(old(memory), FlatMap(FlatOp, bops[..i]), op);
          memory := Applied(memory, op);
        } else {
          assert FlatMap(FlatOp, bops[..i]) + [] == FlatMap(FlatOp, bops[..i]);
        }
      }
      assert bops[..|bops|] == bops;
    }

    /** Applies a record of the leader; unless it is taken in, the contents stay. */
    method ApplyReplicatedRecord(kind: byte, key: Bytes, value: Bytes) returns (ok: bool)
      modifies this, wal
      ensures ok <==> TakesIn(old(halted), kind, key, value)
      ensures ok ==> memory == AllApplied(old(memory), Effects(kind, key, value).value)
      ensures !ok ==> memory == old(memory)
      ensures halted == (old(halted) || (IsRelogged(kind, key) && RelogSize(kind, value) > MAX_FRAME_SIZE))
      ensures wal.currentLSN == old(wal.currentLSN) + if ok && IsRelogged(kind, key) then 1 else 0
    {
      if IsRelogged(kind, key) {
        ok := LogAndApply(kind, key, value);
      } else if kind == OP_BATCH {
        var bops := DecodeBatchPayload(value);
        if bops.None? || halted {
          return false;
        }
        ApplyAll(bops.value);
        return true;
      } else {
        return true;
      }
    }
  }

  /** How many of the records the follower has logged itself. */
  function Relogged(applied: seq<Record>): (n: nat)
    ensures n <= |applied|
  {
    if applied == [] then 0
    else Relogged(applied[..|applied| - 1]) +
         if IsRelogged(applied[|applied| - 1].kind, applied[|applied| - 1].key) then 1 else 0
  }

  /** The follower's receive loop, one message at a time. */
  class FollowerClient {
    const engine: ReplicaEngine
    var lastAppliedLSN: nat
    ghost const base: nat
    ghost const initial: Contents
    ghost var applied: seq<Record>

    /** The contents are what the records applied so far make of the first ones, and those logged again carry the
        numbers. */
    ghost predicate Valid()
      reads this, engine, engine.wal
    {
      && lastAppliedLSN == base + |applied|
      && engine.memory == AllApplied(initial, FlatMap(EffectsIn, applied))
      && engine.wal.currentLSN == base + Relogged(applied)
    }

    constructor (engine: ReplicaEngine)
      ensures Valid() && this.engine == engine
      ensures base == engine.wal.currentLSN && initial == engine.memory && applied == []
    {
      this.engine, lastAppliedLSN := engine, engine.wal.currentLSN;
      base, initial, applied := engine.wal.currentLSN, engine.memory, [];
    }

    /** Refuses a gap, skips a duplicate, and applies the next record if the engine takes it in; an error ends the
        stream. */
    method Receive(m: Record) returns (ok: bool)
      requires Valid()
      modifies this, engine, engine.wal
      ensures Valid()
      ensures var f := Replications.Follower(base, old(applied), None);
        var next := m.lsn == Replications.Last(f) + 1;
        && (ok <==> !Replications.IsGap(f, m) && (next ==> TakesIn(old(engine.halted), m.kind, m.key, m.value)))
        && applied == if ok then Replications.Received(f, m).applied else old(applied)
      ensures m.lsn > old(lastAppliedLSN) + 1 ==> !ok
      ensures m.lsn <= old(lastAppliedLSN) ==> ok && applied == old(applied) && engine.memory == old(engine.memory)
      ensures m.lsn == old(lastAppliedLSN) + 1 && ok ==> applied == old(applied) + [m] && lastAppliedLSN == m.lsn
      ensures !ok ==> applied == old(applied) && engine.memory == old(engine.memory)
    {
      var expected := lastAppliedLSN + 1;
      if m.lsn > expected {
        return false;
      }
      if m.lsn <= lastAppliedLSN {
        return true;
      }
      ok := engine.ApplyReplicatedRecord(m.kind, m.key, m.value);
      if ok {
        AppliedGrows(initial, applied, m);
        lastAppliedLSN, applied := m.lsn, applied + [m];
      }
    }
  }

  lemma AppliedGrows(initial: Contents, applied: seq<Record>, m: Record)
    ensures AllApplied(initial, FlatMap(EffectsIn, applied + [m]))
         == AllApplied(AllApplied(initial, FlatMap(EffectsIn, applied)), EffectsIn(m))
    ensures Relogged(applied + [m]) == Relogged(applied) + if IsRelogged(m.kind, m.key) then 1 else 0
  {
    FlatMapConcat(EffectsIn, applied, [m]);
    FlatMapOne(EffectsIn, m);
    AllAppliedConcat(initial, FlatMap(EffectsIn, applied), EffectsIn(m));
    assert (applied + [m])[..|applied|] == applied;
  }

  // ---------- the follower holds what the leader held ----------

  /** A record as the leader's engine logs it: no batch inside a batch. */
  ghost predicate IsFlat(r: Record) {
    r.kind == OP_BATCH ==>
      && DecodedBatch(r.value).Some?
      && forall i :: 0 <= i < |DecodedBatch(r.value).value| ==> DecodedBatch(r.value).value[i].kind != OP_BATCH
  }

  lemma {:induction false} FlatBatch(bops: seq<BatchOp>, size: nat)
    requires forall i :: 0 <= i < |bops| ==> |bops[i].value| < size && bops[i].kind != OP_BATCH
    ensures OpsOfAll(bops, size) == Some(FlatMap(FlatOp, bops))
    decreases |bops|
  {
    if bops != [] {
      FlatBatch(bops[1..], size);
    }
  }

  /** The follower makes of such a record what recovery makes of it. */
  lemma FlatEffects(r: Record)
    requires IsFlat(r)
    ensures OpsOf(r.kind, r.key, r.value) == Effects(r.kind, r.key, r.value) && EffectsIn(r) == OpsIn(r)
  {
    if r.kind == OP_BATCH {
      FlatBatch(DecodedBatch(r.value).value, |r.value|);
    }
  }

  lemma BatchesAreFlat(lsn: nat, ops: seq<ApiOp>)
    requires ops != [] && AllFit(LoggedAll(ops))
    ensures IsFlat(Record(lsn, OP_BATCH, [], EncodedBatch(LoggedAll(ops)).value))
  {
    BatchRoundTrip(LoggedAll(ops));
  }

  lemma {:induction false} SameEffects(records: seq<Record>)
    requires forall i :: 0 <= i < |records| ==> IsFlat(records[i])
    ensures FlatMap(EffectsIn, records) == Changes(records)
    decreases |records|
  {
    if records != [] {
      FlatEffects(records[0]);
      SameEffects(records[1..]);
    }
  }

  /** Whatever the interleaving of leader, streams and followers, a follower that began with a prefix of the leader's
      log holds exactly what the leader held after the last record the follower has applied. */
  lemma FollowerHoldsPrefix(run: seq<Replications.Event>, r: Broadcasts.ReplicaId, initial: Contents)
    requires Replications.Legal(Replications.INITIAL, run)
    requires r in Replications.After(Replications.INITIAL, run).followers
    requires var s := Replications.After(Replications.INITIAL, run);
      && (forall i :: 0 <= i < |s.log| ==> IsFlat(s.log[i]))
      && s.followers[r].base <= |s.log| && initial == State(s.log[..s.followers[r].base])
    ensures var s := Replications.After(Replications.INITIAL, run);
      var f := s.followers[r];
      Replications.Last(f) <= |s.log| && AllApplied(initial,
                                                    FlatMap(EffectsIn,
                                                    f.applied)) == State(s.log[..Replications.Last(f)])
  {
    ReplicationSafety.AppliedIsARun(run, r);
    var s := Replications.After(Replications.INITIAL, run);
    var f := s.followers[r];
    var n := Replications.Last(f);
    if f.applied != [] {
      SameEffects(f.applied);
      assert s.log[..n] == s.log[..f.base] + f.applied;
      FlatMapConcat(OpsIn, s.log[..f.base], f.applied);
      AllAppliedConcat(map[], Changes(s.log[..f.base]), Changes(f.applied));
    }
  }

  // ---------- starting a follower again ----------

  /** What the follower's own log brings back over contents that were flushed before the records came. */
  function Replay(initial: Contents, applied: seq<Record>): Contents {
    AllApplied(initial, FlatMap(RelogsIn, applied))
  }

  function RelogsIn(m: Record): seq<Op> {
    if IsRelogged(m.kind, m.key) then EffectsIn(m) else []
  }

  /** A follower started again asks for the record after those it has logged, and applies from there on. */
  function CaughtUp(initial: Contents, applied: seq<Record>): Contents {
    AllApplied(Replay(initial, applied), FlatMap(EffectsIn, applied[Relogged(applied)..]))
  }

  /** It asks for the next record exactly when it has logged all it has applied, and then it has lost nothing. */
  lemma {:induction false} RestartInStep(initial: Contents, applied: seq<Record>)
    ensures Relogged(applied) == |applied| <==> forall i :: 0 <= i < |applied| ==>
      IsRelogged(applied[i].kind, applied[i].key)
    ensures Relogged(applied) == |applied| ==>
      Replay(initial, applied) == CaughtUp(initial, applied) == AllApplied(initial, FlatMap(EffectsIn, applied))
    decreases |applied|
  {
    if applied != [] {
      var before, m := applied[..|applied| - 1], applied[|applied| - 1];
      assert applied == before + [m];
      RestartInStep(initial, before);
      FlatMapConcat(EffectsIn, before, [m]);
      FlatMapConcat(RelogsIn, before, [m]);
      FlatMapOne(EffectsIn, m);
      FlatMapOne(RelogsIn, m);
      AllAppliedConcat(initial, FlatMap(EffectsIn, before), EffectsIn(m));
      AllAppliedConcat(initial, FlatMap(RelogsIn, before), RelogsIn(m));
    }
  }

  lemma FlatMapTwo<A, B>(f: A -> seq<B>, a: A, b: A)
    ensures FlatMap(f, [a, b]) == f(a) + f(b)
  {
    assert [a, b] == [a] + [b];
    FlatMapConcat(f, [a], [b]);
    FlatMapOne(f, a);
    FlatMapOne(f, b);
  }

  lemma RelogsSecond(batch: Record, put: Record)
    requires !IsRelogged(batch.kind, batch.key) && IsRelogged(put.kind, put.key)
    ensures Relogged([batch, put]) == 1 && [batch, put][1..] == [put]
    ensures FlatMap(RelogsIn, [batch, put]) == EffectsIn(put)
  {
    assert [batch, put][..1] == [batch] && [batch][..0] == [];
    assert Relogged([batch]) == Relogged([]);
    FlatMapTwo(RelogsIn, batch, put);
    assert [] + EffectsIn(put) == EffectsIn(put);
  }

  lemma AppliedTwo(m: Contents, a: Op, b: Op)
    ensures AllApplied(m, [a] + [b]) == Applied(Applied(m, a), b)
  {
    AllAppliedThen(m, [a], b);
    AppliedOne(m, a);
  }

  /** A batch followed by a single write: the follower started again asks for the single write only, and the batch is
      lost to it unless its pages were flushed. */
  lemma RestartLosesBatch(initial: Contents, batch: Record, put: Record, k: Key, v: Bytes, other: Key)
    requires batch.kind == OP_BATCH && EffectsIn(batch) == [Put(k, v)] && k !in initial
    requires put.kind == OP_PUT && |put.key| >= 8 && GetLE(put.key[..8]) == other && other != k
    ensures k in AllApplied(initial, FlatMap(EffectsIn, [batch, put])) && k !in CaughtUp(initial, [batch, put])
  {
    var second := Put(other, put.value);
    assert EffectsIn(put) == [second];
    FlatMapTwo(EffectsIn, batch, put);
    AppliedTwo(initial, Put(k, v), second);
    RelogsSecond(batch, put);
    FlatMapOne(EffectsIn, put);
    AppliedOne(initial, second);
    AppliedOne(Replay(initial, [batch, put]), second);
  }
}
