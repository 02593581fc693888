/** Leader, broadcaster and followers as one machine of interleaved steps. */
module Replications {
  import opened Types
  import opened WalRecords
  import opened Broadcasts

  // ---------- the leader's side of a stream ----------

  /** Where a StreamWAL call stands. Records are counted from 0: position n is the record numbered n + 1. */
  datatype Phase =
    | ToOpenBak
    | ReadingBak(next: nat, end: nat)
    | ToOpenActive(end: nat)
    | ReadingActive(next: nat, gen: nat)
    | Live
    | Ended

  /** One StreamWAL call: the request, its progress, what is on the wire, and whether every file it opened,
      or the channel where there was no log to open, began no later than where its stream had got to. */
  datatype Session = Session(replica: ReplicaId, from: nat, phase: Phase, lastSent: nat, wire: seq<Record>, whole: bool)

  /** The number up to which the replica will have everything once the wire is empty. */
  function Reach(x: Session): nat {
    Max(if x.from == 0 then 0 else x.from - 1, x.lastSent)
  }

  function WithSent(x: Session, m: Record): Session {
    x.(wire := x.wire + [m], lastSent := m.lsn)
  }

  /** Replay sends a record unless the replica has it or the stream has sent it. */
  function Replayed(x: Session, m: Record): Session {
    if m.lsn < x.from || m.lsn <= x.lastSent then x else WithSent(x, m)
  }

  /** The live phase sends a record unless the stream has sent it. */
  function Drained(x: Session, m: Record): Session {
    if m.lsn > x.lastSent then WithSent(x, m) else x
  }

  // ---------- the follower ----------

  datatype Follower = Follower(base: nat, applied: seq<Record>, session: Option<SessionId>)

  function Last(f: Follower): nat {
    f.base + |f.applied|
  }

  predicate IsGap(f: Follower, m: Record) {
    m.lsn > Last(f) + 1
  }

  /** A gap ends the stream; a duplicate is skipped; the next record is applied. */
  function Received(f: Follower, m: Record): Follower {
    if IsGap(f, m) then f.(session := None)
    else if m.lsn <= Last(f) then f
    else f.(applied := f.applied + [m])
  }

  // ---------- the machine ----------

  datatype Ack = Ack(replica: ReplicaId, lsn: nat)

  /** How far a rotation has come: it removes the archive, makes the log the archive, and creates a new log. */
  datatype Rotation = Idle | ArchiveRemoved | LogRenamed

  /** The log, how much of it has been announced, where its generations begin, and everyone taking part. */
  datatype State = State(
    log: seq<Record>, announced: nat, cuts: seq<nat>, rotation: Rotation, hub: Hub,
    sessions: map<SessionId, Session>, followers: map<ReplicaId, Follower>,
    acks: map<ReplicaId, nat>, acksSent: set<Ack>)

  const INITIAL := State([], 0, [0], Idle, Hub(map[], map[]), map[], map[], map[], {})

  /** The end of a generation of the log file: where the next begins, or the end of the log. */
  function GenEnd(cuts: seq<nat>, length: nat, gen: nat): nat
    requires gen < |cuts|
  {
    if gen + 1 < |cuts| then cuts[gen + 1] else length
  }

  function ActiveStart(s: State): nat
    requires s.cuts != []
  {
    s.cuts[|s.cuts| - 1]
  }

  predicate HasArchive(s: State) {
    |s.cuts| > 1 && !s.rotation.ArchiveRemoved?
  }

  /** Where the archived generation begins; without an archive, an empty one at the start. */
  function BakStart(s: State): nat {
    if HasArchive(s) then s.cuts[|s.cuts| - 2] else 0
  }

  function BakEnd(s: State): nat {
    if HasArchive(s) then ActiveStart(s) else 0
  }

  datatype Event =
    | Commit(kind: byte, key: Bytes, value: Bytes)
    | Announce
    | RemoveArchive
    | RenameLog
    | CreateLog
    | Join(replica: ReplicaId, base: nat)
    | Connect(replica: ReplicaId, session: SessionId)
    | OpenBak(session: SessionId)
    | ReadOne(session: SessionId)
    | EndOfBak(session: SessionId)
    | OpenActive(session: SessionId)
    | EndOfActive(session: SessionId)
    | Drain(session: SessionId)
    | Overflow(session: SessionId)
    | Cancel(session: SessionId)
    | Receive(replica: ReplicaId)
    | Disconnect(replica: ReplicaId)
    | SendAck(replica: ReplicaId)
    | DeliverAck(ack: Ack)

  predicate InPhase(s: State, i: SessionId) {
    i in s.sessions && i in s.hub.channels
  }

  predicate Streaming(s: State, r: ReplicaId) {
    r in s.followers && s.followers[r].session.Some? && s.followers[r].session.value in s.sessions
  }

  predicate HasMore(s: State, p: Phase) {
    match p
    case ReadingBak(next, end) => next < end <= |s.log|
    case ReadingActive(next, gen) => gen < |s.cuts| && next < GenEnd(s.cuts, |s.log|, gen) <= |s.log|
    case _ => false
  }

  function NextPosition(p: Phase): nat {
    match p case ReadingBak(n, _) => n case ReadingActive(n, _) => n case _ => 0
  }

  /** The engine's lock covers logging and announcing, so a rotation never falls between the two, and the log's own lock
      keeps commits out of a rotation; a stream opens and reads the files without either. */
  predicate Enabled(s: State, e: Event) {
    match e
    case Commit(_, _, _) => s.announced == |s.log| && s.rotation.Idle?
    case Announce => s.announced < |s.log|
    case RemoveArchive => s.announced == |s.log| && s.rotation.Idle?
    case RenameLog => s.rotation.ArchiveRemoved?
    case CreateLog => s.rotation.LogRenamed?
    case Join(r, _) => r !in s.followers
    case Connect(r, i) =>
      r in s.followers && s.followers[r].session.None? && i !in s.sessions && i !in s.hub.channels
      && (r in s.hub.subscribers ==> s.hub.subscribers[r] in s.hub.channels)
    case OpenBak(i) => InPhase(s, i) && s.sessions[i].phase.ToOpenBak? && s.cuts != []
    case ReadOne(i) => InPhase(s, i) && HasMore(s, s.sessions[i].phase)
    case EndOfBak(i) =>
      InPhase(s, i) && s.sessions[i].phase.ReadingBak? && s.sessions[i].phase.next == s.sessions[i].phase.end
    case OpenActive(i) => InPhase(s, i) && s.sessions[i].phase.ToOpenActive? && s.cuts != []
    case EndOfActive(i) => InPhase(s, i) && s.sessions[i].phase.ReadingActive?
      && s.sessions[i].phase.gen < |s.cuts|
      && s.sessions[i].phase.next == GenEnd(s.cuts, |s.log|, s.sessions[i].phase.gen)
    case Drain(i) => InPhase(s, i) && s.sessions[i].phase.Live? && s.hub.channels[i].queue != []
    case Overflow(i) =>
      InPhase(s, i) && s.sessions[i].phase.Live? && s.hub.channels[i].queue == [] && s.hub.channels[i].closed
    case Cancel(i) => InPhase(s, i)
    case Receive(r) => Streaming(s, r) && s.sessions[s.followers[r].session.value].wire != []
    case Disconnect(r) => Streaming(s, r)
    case SendAck(r) => r in s.followers
    case DeliverAck(a) => a in s.acksSent
  }

  function WithSession(s: State, i: SessionId, x: Session): State {
    s.(sessions := s.sessions[i := x])
  }

  function WithPhase(s: State, i: SessionId, p: Phase): State
    requires i in s.sessions
  {
    WithSession(s, i, s.sessions[i].(phase := p))
  }

  /** A session that has read one more record of the file it is in. */
  function Advanced(x: Session, m: Record): Session {
    var y := Replayed(x, m);
    match x.phase
    case ReadingBak(n, end) => y.(phase := ReadingBak(n + 1, end))
    case ReadingActive(n, gen) => y.(phase := ReadingActive(n + 1, gen))
    case _ => y
  }

  function Popped(c: Channel): Channel
    requires c.queue != []
  {
    Channel(c.replica, c.start + 1, c.queue[1..], c.closed)
  }

  function Next(s: State, e: Event): State
    requires Enabled(s, e)
  {
    match e
    case Commit(kind, key, value) => s.(log := s.log + [Record(|s.log| + 1, kind, key, value)])
    case Announce => s.(hub := Sent(s.hub, s.log[s.announced]), announced := s.announced + 1)
    case RemoveArchive => s.(rotation := ArchiveRemoved)
    case RenameLog => s.(cuts := s.cuts + [|s.log|], rotation := LogRenamed)
    case CreateLog => s.(rotation := Idle)
    case Join(r, base) => s.(followers := s.followers[r := Follower(base, [], None)])
    case Connect(r, i) =>
      var f := s.followers[r];
      s.(hub := Subscribed(s.hub, r, i, s.announced),
         sessions := s.sessions[i := Session(r, Last(f) + 1, ToOpenBak, 0, [], true)],
         followers := s.followers[r := f.(session := Some(i))])
    case OpenBak(i) =>
      var x := s.sessions[i];
      WithSession(s, i, x.(phase := ReadingBak(BakStart(s), BakEnd(s)), whole := x.whole && BakStart(s) <= Reach(x)))
    case ReadOne(i) => WithSession(s, i, Advanced(s.sessions[i], s.log[NextPosition(s.sessions[i].phase)]))
    case EndOfBak(i) => WithPhase(s, i, ToOpenActive(s.sessions[i].phase.end))
    case OpenActive(i) =>
      var x := s.sessions[i];
      if s.rotation.LogRenamed? then WithSession(s, i,
                                                 x.(phase := Live,
                                                 whole := x.whole && s.hub.channels[i].start <= Reach(x)))
      else WithSession(s, i, x.(phase := ReadingActive(ActiveStart(s), |s.cuts| - 1),
                                whole := x.whole && ActiveStart(s) <= Reach(x)))
    case EndOfActive(i) => WithPhase(s, i, Live)
    case Drain(i) =>
      var c := s.hub.channels[i];
      WithSession(s, i, Drained(s.sessions[i], c.queue[0])).(hub := s.hub.(channels := s.hub.channels[i := Popped(c)]))
    case Overflow(i) => WithPhase(s, i, Ended).(hub := Unsubscribed(s.hub, i))
    case Cancel(i) => WithPhase(s, i, Ended).(hub := Unsubscribed(s.hub, i))
    case Receive(r) =>
      var i := s.followers[r].session.value;
      var x := s.sessions[i];
      WithSession(s, i, x.(wire := x.wire[1..])).(followers := s.followers[r := Received(s.followers[r], x.wire[0])])
    case Disconnect(r) => s.(followers := s.followers[r := s.followers[r].(session := None)])
    case SendAck(r) => s.(acksSent := s.acksSent + {Ack(r, Last(s.followers[r]))})
    case DeliverAck(a) => s.(acks := s.acks[a.replica := a.lsn])
  }

  /** A run: each event enabled where it happens. */
  ghost predicate Legal(s: State, run: seq<Event>)
    decreases |run|
  {
    run == [] || (Enabled(s, run[0]) && Legal(Next(s, run[0]), run[1..]))
  }

  function After(s: State, run: seq<Event>): State
    requires Legal(s, run)
    decreases |run|
  {
    if run == [] then s else After(Next(s, run[0]), run[1..])
  }
}
