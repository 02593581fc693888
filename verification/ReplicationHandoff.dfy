/** When the hand-over from the log files to the live channel is free of gaps, and when it is not. */
module ReplicationHandoff {
  import opened Types
  import opened WalRecords
  import opened Broadcasts
  import opened Replications
  import opened ReplicationSafety

  // ---------- events that are not the stream's own ----------

  predicate IsOwn(e: Event, i: SessionId) {
    || e == OpenBak(i) || e == ReadOne(i) || e == EndOfBak(i) || e == OpenActive(i) || e == EndOfActive(i)
    || e == Drain(i) || e == Overflow(i) || e == Cancel(i)
  }

  /** Any other event leaves the stream where it is: the log grows or is cut, and messages arrive. */
  ghost predicate LeftAlone(s: State, t: State, i: SessionId) {
    && i in s.sessions && i in t.sessions && i in s.hub.channels && i in t.hub.channels
    && t.sessions[i] == s.sessions[i].(wire := t.sessions[i].wire)
    && t.hub.channels[i].start == s.hub.channels[i].start
    && s.log <= t.log && (t.cuts == s.cuts || (t.log == s.log && t.cuts == s.cuts + [|s.log|]))
  }

  lemma AnnounceLeaves(s: State, i: SessionId)
    requires HubHolds(s.hub) && i in s.sessions && i in s.hub.channels && Enabled(s, Announce)
    ensures LeftAlone(s, Next(s, Announce), i)
  {
    SentHolds(s.hub, s.log[s.announced]);
  }

  lemma OthersLeave(s: State, i: SessionId, e: Event)
    requires HubHolds(s.hub) && i in s.sessions && i in s.hub.channels && Enabled(s, e) && !IsOwn(e, i)
    ensures LeftAlone(s, Next(s, e), i)
  {
    if e.Announce? {
      AnnounceLeaves(s, i);
    }
  }

  predicate BetweenOpens(p: Phase) {
    p.ReadingBak? || p.ToOpenActive?
  }

  /** Where the files begin that a stream would find now. */
  function FilesStart(s: State): nat
    requires s.cuts != []
  {
    if s.rotation.ArchiveRemoved? then ActiveStart(s) else BakStart(s)
  }

  /** The files still reach back to the record asked for when the archive is opened, and no rotation renames the log
      between the two opens. */
  ghost predicate Undisturbed(s: State, i: SessionId, run: seq<Event>)
    requires Legal(s, run)
    decreases |run|
  {
    run == [] ||
    (&& (run[0].RenameLog? && i in s.sessions ==> !BetweenOpens(s.sessions[i].phase))
     && (run[0] == OpenBak(i) ==> FilesStart(s) < s.sessions[i].from)
     && Undisturbed(Next(s, run[0]), i, run[1..]))
  }

  /** So far the stream is whole, and the active log begins where the archive it reads ends, or holds all that was asked
      for. */
  ghost predicate HandingOver(s: State, i: SessionId) {
    && s.cuts != [] && i in s.sessions && s.sessions[i].whole
    && match s.sessions[i].phase
       case ReadingBak(_, end) => end == ActiveStart(s) || ActiveStart(s) < s.sessions[i].from
       case ToOpenActive(end) => end == ActiveStart(s) || ActiveStart(s) < s.sessions[i].from
       case _ => true
  }

  lemma HandingOverOwn(s: State, i: SessionId, e: Event)
    requires LogHolds(s) && SessionsHold(s) && ChannelsHold(s) && HandingOver(s, i) && Enabled(s, e) && IsOwn(e, i)
    requires e == OpenBak(i) ==> FilesStart(s) < s.sessions[i].from
    ensures HandingOver(Next(s, e), i)
  {
  }

  lemma HandingOverStep(s: State, i: SessionId, e: Event)
    requires Inv(s) && HandingOver(s, i) && Enabled(s, e)
    requires e.RenameLog? ==> !BetweenOpens(s.sessions[i].phase)
    requires e == OpenBak(i) ==> FilesStart(s) < s.sessions[i].from
    ensures HandingOver(Next(s, e), i)
  {
    SessionIs(s, i);
    if IsOwn(e, i) {
      HandingOverOwn(s, i, e);
    } else {
      OthersLeave(s, i, e);
    }
  }

  lemma {:induction false} HandingOverRun(s: State, i: SessionId, run: seq<Event>)
    requires Inv(s) && HandingOver(s, i) && Legal(s, run) && Undisturbed(s, i, run)
    ensures HandingOver(After(s, run), i) && Inv(After(s, run))
    decreases |run|
  {
    if run != [] {
      HandingOverStep(s, i, run[0]);
      Step(s, run[0]);
      HandingOverRun(Next(s, run[0]), i, run[1..]);
    }
  }

  /** A replica that connects, and whose stream is undisturbed, is never sent a record beyond the next one it needs:
      neither by the replay, nor by the live phase, nor from an evicted channel. */
  lemma HandoffHasNoGap(s: State, r: ReplicaId, i: SessionId, run: seq<Event>)
    requires Inv(s) && Enabled(s, Connect(r, i)) && Legal(Next(s, Connect(r, i)), run)
    requires Undisturbed(Next(s, Connect(r, i)), i, run)
    ensures var t := After(Next(s, Connect(r, i)), run);
            Streaming(t, r) && t.followers[r].session == Some(i) && t.sessions[i].wire != []
            ==> !IsGap(t.followers[r], t.sessions[i].wire[0])
  {
    var s1 := Next(s, Connect(r, i));
    Step(s, Connect(r, i));
    HandingOverRun(s1, i, run);
    var t := After(s1, run);
    if Streaming(t, r) && t.followers[r].session == Some(i) && t.sessions[i].wire != [] {
      WholeHasNoGap(t, r);
    }
  }

  /** Reading on puts a gap on the wire exactly when the next record of the file lies beyond where the stream is. */
  lemma HoleSendsGap(s: State, r: ReplicaId, i: SessionId)
    requires Inv(s) && Enabled(s, ReadOne(i)) && r in s.followers && s.followers[r].session == Some(i)
    ensures var x, last := s.sessions[i], Last(s.followers[r]);
      GapFree(last, Next(s, ReadOne(i)).sessions[i].wire)
      <==> GapFree(last, x.wire) && NextPosition(x.phase) <= Reach(x)
  {
    assert LinkedTo(s, r, i);
    var x := s.sessions[i];
    var m := s.log[NextPosition(x.phase)];
    assert m.lsn == NextPosition(x.phase) + 1;
    SendOne(Last(s.followers[r]), x.wire, m);
  }

  /** The same when the files held nothing and the stream goes on from the channel: a queued record beyond the next one
      is a gap, and one that was already replayed is not sent again. */
  lemma HoleDrainsGap(s: State, r: ReplicaId, i: SessionId)
    requires Inv(s) && Enabled(s, Drain(i)) && r in s.followers && s.followers[r].session == Some(i)
    ensures var x, last := s.sessions[i], Last(s.followers[r]);
      GapFree(last, Next(s, Drain(i)).sessions[i].wire)
      <==> GapFree(last, x.wire) && s.hub.channels[i].start <= Reach(x)
  {
    assert LinkedTo(s, r, i);
    SessionIs(s, i);
    var x, c := s.sessions[i], s.hub.channels[i];
    var m := c.queue[0];
    assert m == s.log[c.start] && m.lsn == c.start + 1;
    SendOne(Last(s.followers[r]), x.wire, m);
  }

  // ---------- a rotation between the two opens ----------

  const SOME_PUT := Commit(OP_PUT, [], [])
  const R1 := Record(1, OP_PUT, [], [])
  const R2 := Record(2, OP_PUT, [], [])
  const HUB := Hub(map[0 := 7], map[7 := Channel(0, 1, [], false)])
  const FULL_HUB := Hub(map[0 := 7], map[7 := Channel(0, 1, [R2], false)])
  const ALONE := map[0 := Follower(0, [], None)]
  const JOINED := map[0 := Follower(0, [], Some(7))]

  function At(log: seq<Record>, announced: nat, cuts: seq<nat>, hub: Hub, p: Phase, lastSent: nat, wire: seq<Record>,
              whole: bool): State {
    State(log, announced, cuts, Idle, hub, map[7 := Session(0, 1, p, lastSent, wire, whole)], JOINED, map[], {})
  }

  /** The first record is in the active log when replica 0 asks for it, but a rotation after the archive was opened
      moves it out of the file that is opened next. */
  const OVERLAPPED_RUN: seq<Event> := [
    Join(0, 0), SOME_PUT, Announce,
    Connect(0, 7), OpenBak(7), EndOfBak(7), RemoveArchive, RenameLog, CreateLog, OpenActive(7),
    SOME_PUT, Announce, ReadOne(7)
  ]

  const S1 := INITIAL.(followers := ALONE)
  const S2 := S1.(log := [R1])
  const S3 := S2.(announced := 1)
  const S4 := At([R1], 1, [0], HUB, ToOpenBak, 0, [], true)
  const S5 := At([R1], 1, [0], HUB, ReadingBak(0, 0), 0, [], true)
  const S6 := At([R1], 1, [0], HUB, ToOpenActive(0), 0, [], true)
  const S6A := S6.(rotation := ArchiveRemoved)
  const S6B := At([R1], 1, [0, 1], HUB, ToOpenActive(0), 0, [], true).(rotation := LogRenamed)
  const S7 := At([R1], 1, [0, 1], HUB, ToOpenActive(0), 0, [], true)
  const S8 := At([R1], 1, [0, 1], HUB, ReadingActive(1, 1), 0, [], false)
  const S9 := At([R1, R2], 1, [0, 1], HUB, ReadingActive(1, 1), 0, [], false)
  const S10 := At([R1, R2], 2, [0, 1], FULL_HUB, ReadingActive(1, 1), 0, [], false)
  const S11 := At([R1, R2], 2, [0, 1], FULL_HUB, ReadingActive(2, 1), 2, [R2], false)

  ghost predicate Leads(s: State, e: Event, t: State) {
    Enabled(s, e) && Next(s, e) == t
  }

  lemma Joining()
    ensures Leads(INITIAL, Join(0, 0), S1) && Leads(S1, SOME_PUT, S2)
  {
  }

  lemma AnnouncingToNobody()
    ensures Leads(S2, Announce, S3)
  {
  }

  lemma Connecting()
    ensures Leads(S3, Connect(0, 7), S4)
  {
  }

  lemma Opening()
    ensures Leads(S4, OpenBak(7), S5) && Leads(S5, EndOfBak(7), S6)
  {
  }

  lemma Rotating()
    ensures Leads(S6, RemoveArchive, S6A) && Leads(S6A, RenameLog, S6B) && Leads(S6B, CreateLog, S7)
    ensures Leads(S7, OpenActive(7), S8)
  {
  }

  lemma Logging()
    ensures Leads(S8, SOME_PUT, S9)
  {
  }

  lemma Announcing()
    ensures Leads(S9, Announce, S10)
  {
    var hub := Sent(HUB, R2);
    assert IsSubscribed(HUB, 7) && HasRoom(HUB, 0) && [] + [R2] == [R2];
    assert Offered(HUB.channels[7], R2) == FULL_HUB.channels[7];
    assert hub.channels == FULL_HUB.channels;
    assert hub.subscribers == FULL_HUB.subscribers;
  }

  lemma Reading()
    ensures Leads(S10, ReadOne(7), S11)
  {
    var x := S10.sessions[7];
    assert x.wire + [R2] == [R2];
    assert Advanced(x, R2) == S11.sessions[7];
  }

  lemma LegalFrom(s: State, e: Event, t: State, run: seq<Event>)
    requires Leads(s, e, t) && Legal(t, run)
    ensures Legal(s, [e] + run) && After(s, [e] + run) == After(t, run)
  {
  }

  lemma OverlappedEnd()
    ensures Legal(S7, OVERLAPPED_RUN[9..]) && After(S7, OVERLAPPED_RUN[9..]) == S11
  {
    Rotating();
    Logging();
    Announcing();
    Reading();
    LegalFrom(S10, ReadOne(7), S11, []);
    LegalFrom(S9, Announce, S10, [ReadOne(7)] + []);
    LegalFrom(S8, SOME_PUT, S9, [Announce] + ([ReadOne(7)] + []));
    LegalFrom(S7, OpenActive(7), S8, [SOME_PUT] + ([Announce] + ([ReadOne(7)] + [])));
    assert OVERLAPPED_RUN[9..] == [OpenActive(7)] + ([SOME_PUT] + ([Announce] + ([ReadOne(7)] + [])));
  }

  lemma OverlappedMiddle()
    ensures Legal(S3, OVERLAPPED_RUN[3..]) && After(S3, OVERLAPPED_RUN[3..]) == S11
  {
    OverlappedEnd();
    Connecting();
    Opening();
    Rotating();
    var end := OVERLAPPED_RUN[9..];
    LegalFrom(S6B, CreateLog, S7, end);
    LegalFrom(S6A, RenameLog, S6B, [CreateLog] + end);
    LegalFrom(S6, RemoveArchive, S6A, [RenameLog] + ([CreateLog] + end));
    var rotation := [RemoveArchive] + ([RenameLog] + ([CreateLog] + end));
    LegalFrom(S5, EndOfBak(7), S6, rotation);
    LegalFrom(S4, OpenBak(7), S5, [EndOfBak(7)] + rotation);
    LegalFrom(S3, Connect(0, 7), S4, [OpenBak(7)] + ([EndOfBak(7)] + rotation));
    assert OVERLAPPED_RUN[3..] == [Connect(0, 7)] + ([OpenBak(7)] + ([EndOfBak(7)] + rotation));
  }

  /** Without the second condition the hand-over can lose a record: the follower is left with a gap. */
  lemma OverlapLosesRecord()
    ensures Legal(INITIAL, OVERLAPPED_RUN) && After(INITIAL, OVERLAPPED_RUN) == S11
    ensures Enabled(S11, Receive(0)) && IsGap(S11.followers[0], S11.sessions[7].wire[0])
  {
    OverlappedMiddle();
    Joining();
    AnnouncingToNobody();
    var rest := OVERLAPPED_RUN[3..];
    LegalFrom(S2, Announce, S3, rest);
    LegalFrom(S1, SOME_PUT, S2, [Announce] + rest);
    LegalFrom(INITIAL, Join(0, 0), S1, [SOME_PUT] + ([Announce] + rest));
    assert OVERLAPPED_RUN == [Join(0, 0)] + ([SOME_PUT] + ([Announce] + rest));
  }
}
