/** A follower whose next record the files still hold can be brought up to the end of the log and acknowledge it. */
module ReplicationDelivery {
  import opened Types
  import opened WalRecords
  import opened Broadcasts
  import opened Replications
  import opened ReplicationSafety
  import opened ReplicationHandoff
  import opened ReplicationHoles

  lemma {:induction false} RunsCombine(s: State, first: seq<Event>, second: seq<Event>)
    requires Legal(s, first) && Legal(After(s, first), second)
    ensures Legal(s, first + second) && After(s, first + second) == After(After(s, first), second)
    decreases |first|
  {
    if first == [] {
      assert first + second == second;
    } else {
      assert (first + second)[1..] == first[1..] + second;
      RunsCombine(Next(s, first[0]), first[1..], second);
    }
  }

  lemma TwoEvents(s: State, a: Event, b: Event)
    requires Enabled(s, a) && Enabled(Next(s, a), b)
    ensures Legal(s, [a, b]) && After(s, [a, b]) == Next(Next(s, a), b)
  {
    assert [a, b][1..] == [b] && [b][1..] == [];
    assert Legal(Next(Next(s, a), b), []);
    assert Legal(Next(s, a), [b]) && After(Next(s, a), [b]) == Next(Next(s, a), b);
  }

  /** The follower listens to a stream that is whole. */
  ghost predicate Follows(s: State, r: ReplicaId, i: SessionId) {
    Inv(s) && Listens(s, r, i) && i in s.sessions && s.sessions[i].whole && i in s.hub.channels
  }

  /** Only this stream, its channel and its follower have moved. */
  ghost predicate SameLog(s: State, t: State) {
    t.log == s.log && t.announced == s.announced && t.cuts == s.cuts && t.rotation == s.rotation
  }

  lemma StepFollows(s: State, r: ReplicaId, i: SessionId, e: Event)
    requires Follows(s, r, i) && Enabled(s, e)
    requires Listens(Next(s, e), r, i) && i in Next(s, e).sessions && Next(s, e).sessions[i].whole
    ensures Follows(Next(s, e), r, i)
  {
    Step(s, e);
    SessionIs(Next(s, e), i);
  }

  // ---------- reading the files ----------

  /** Where the file ends that the stream reads. */
  function FileEnd(s: State, p: Phase): nat {
    match p
    case ReadingBak(_, end) => end
    case ReadingActive(_, gen) => if gen < |s.cuts| then GenEnd(s.cuts, |s.log|, gen) else 0
    case _ => 0
  }

  predicate SameFile(p: Phase, q: Phase) {
    match p
    case ReadingBak(_, end) => q.ReadingBak? && q.end == end
    case ReadingActive(_, gen) => q.ReadingActive? && q.gen == gen
    case _ => false
  }

  lemma OneRead(s: State, r: ReplicaId, i: SessionId)
    requires Follows(s, r, i) && HasMore(s, s.sessions[i].phase)
    ensures Enabled(s, ReadOne(i))
    ensures var t, p := Next(s, ReadOne(i)), s.sessions[i].phase;
      && Follows(t, r, i) && SameLog(s, t) && t.hub == s.hub && t.followers == s.followers
      && SameFile(p, t.sessions[i].phase) && NextPosition(t.sessions[i].phase) == NextPosition(p) + 1
      && Reach(t.sessions[i]) == Max(Reach(s.sessions[i]), NextPosition(p) + 1)
  {
    SessionIs(s, i);
    StepFollows(s, r, i, ReadOne(i));
  }

  /** Reading on to the end of the file. */
  lemma {:induction false} ReadToEnd(s: State, r: ReplicaId, i: SessionId) returns (run: seq<Event>)
    requires Follows(s, r, i) && (s.sessions[i].phase.ReadingBak? || s.sessions[i].phase.ReadingActive?)
    ensures Legal(s, run)
    ensures var t, p := After(s, run), s.sessions[i].phase;
      && Follows(t, r, i) && SameLog(s, t) && t.hub == s.hub && t.followers == s.followers
      && SameFile(p, t.sessions[i].phase) && NextPosition(t.sessions[i].phase) == FileEnd(s, p)
      && Reach(t.sessions[i]) == Max(Reach(s.sessions[i]), FileEnd(s, p))
    decreases FileEnd(s, s.sessions[i].phase) - NextPosition(s.sessions[i].phase)
  {
    SessionIs(s, i);
    if NextPosition(s.sessions[i].phase) == FileEnd(s, s.sessions[i].phase) {
      run := [];
    } else {
      OneRead(s, r, i);
      var rest := ReadToEnd(Next(s, ReadOne(i)), r, i);
      run := [ReadOne(i)] + rest;
    }
  }

  // ---------- the live phase ----------

  /** Every drain takes one record off the channel, and none is taken twice. */
  lemma OneDrain(s: State, r: ReplicaId, i: SessionId)
    requires Follows(s, r, i) && s.sessions[i].phase.Live? && s.hub.channels[i].queue != []
    ensures Enabled(s, Drain(i))
    ensures var t, c := Next(s, Drain(i)), s.hub.channels[i];
      && Follows(t, r, i) && SameLog(s, t) && t.followers == s.followers && t.sessions[i].phase.Live?
      && t.hub.channels[i].queue == c.queue[1..] && t.hub.channels[i].start == c.start + 1
      && Reach(t.sessions[i]) == Max(Reach(s.sessions[i]), c.start + 1)
  {
    SessionIs(s, i);
    StepFollows(s, r, i, Drain(i));
  }

  lemma {:induction false} DrainAll(s: State, r: ReplicaId, i: SessionId) returns (run: seq<Event>)
    requires Follows(s, r, i) && s.sessions[i].phase.Live?
    ensures Legal(s, run) && |run| == |s.hub.channels[i].queue|
    ensures var t, c := After(s, run), s.hub.channels[i];
      && Follows(t, r, i) && SameLog(s, t) && t.followers == s.followers && t.sessions[i].phase.Live?
      && t.hub.channels[i].queue == []
      && Reach(t.sessions[i]) == Max(Reach(s.sessions[i]), c.start + |c.queue|)
    decreases |s.hub.channels[i].queue|
  {
    SessionIs(s, i);
    if s.hub.channels[i].queue == [] {
      run := [];
    } else {
      OneDrain(s, r, i);
      var rest := DrainAll(Next(s, Drain(i)), r, i);
      run := [Drain(i)] + rest;
    }
  }

  // ---------- the follower ----------

  lemma OneReceive(s: State, r: ReplicaId, i: SessionId)
    requires Follows(s, r, i) && s.sessions[i].wire != []
    ensures Enabled(s, Receive(r))
    ensures var t, x := Next(s, Receive(r)), s.sessions[i];
      && Follows(t, r, i) && SameLog(s, t) && t.hub == s.hub
      && t.sessions[i] == x.(wire := x.wire[1..])
      && Last(t.followers[r]) == Max(Last(s.followers[r]), x.wire[0].lsn)
  {
    WholeHasNoGap(s, r);
    assert LinkedTo(s, r, i);
    StepFollows(s, r, i, Receive(r));
  }

  /** Taking in everything on the wire leaves the follower where the stream has got to. */
  lemma {:induction false} ReceiveAll(s: State, r: ReplicaId, i: SessionId) returns (run: seq<Event>)
    requires Follows(s, r, i)
    ensures Legal(s, run) && |run| == |s.sessions[i].wire|
    ensures var t, x := After(s, run), s.sessions[i];
      && Follows(t, r, i) && SameLog(s, t) && t.hub == s.hub && t.sessions[i] == x.(wire := [])
      && Last(t.followers[r]) == Reach(x)
    decreases |s.sessions[i].wire|
  {
    assert LinkedTo(s, r, i);
    if s.sessions[i].wire == [] {
      run := [];
    } else {
      OneReceive(s, r, i);
      var rest := ReceiveAll(Next(s, Receive(r)), r, i);
      run := [Receive(r)] + rest;
    }
  }

  /** In its live phase a subscribed stream brings its follower up to the last record announced. */
  lemma DeliverLive(s: State, r: ReplicaId, i: SessionId) returns (run: seq<Event>)
    requires Follows(s, r, i) && s.sessions[i].phase.Live? && IsSubscribed(s.hub, i)
    ensures Legal(s, run)
    ensures var t := After(s, run);
      && Follows(t, r, i) && SameLog(s, t)
      && Last(t.followers[r]) == Max(Reach(s.sessions[i]), s.announced)
  {
    SessionIs(s, i);
    var drains := DrainAll(s, r, i);
    var receives := ReceiveAll(After(s, drains), r, i);
    RunsCombine(s, drains, receives);
    run := drains + receives;
  }

  // ---------- from connecting on ----------

  /** The log files hold the next record the follower needs, or begin with it. */
  predicate FilesReachBack(s: State, r: ReplicaId)
    requires s.cuts != [] && r in s.followers
  {
    FilesStart(s) <= Last(s.followers[r])
  }

  /** Connecting and opening the archive. */
  lemma Begin(s: State, r: ReplicaId, i: SessionId)
    requires Inv(s) && Enabled(s, Connect(r, i)) && FilesReachBack(s, r)
    ensures Legal(s, [Connect(r, i), OpenBak(i)])
    ensures var t := After(s, [Connect(r, i), OpenBak(i)]);
      && Follows(t, r, i) && SameLog(s, t) && IsSubscribed(t.hub, i) && t.hub.channels[i].start == s.announced
      && t.sessions[i].phase == ReadingBak(BakStart(s), BakEnd(s))
      && Reach(t.sessions[i]) == Last(s.followers[r])
  {
    var s1 := Next(s, Connect(r, i));
    Step(s, Connect(r, i));
    StepFollows(s1, r, i, OpenBak(i));
    TwoEvents(s, Connect(r, i), OpenBak(i));
  }

  /** Going on to the active log, or to the channel where a rotation has left none. */
  lemma GoOn(s: State, r: ReplicaId, i: SessionId)
    requires Follows(s, r, i) && s.sessions[i].phase.ReadingBak?
    requires NextPosition(s.sessions[i].phase) == FileEnd(s, s.sessions[i].phase)
    requires ActiveStart(s) <= Reach(s.sessions[i]) && s.hub.channels[i].start <= |s.log|
    ensures Legal(s, [EndOfBak(i), OpenActive(i)])
    ensures var t := After(s, [EndOfBak(i), OpenActive(i)]);
      && Follows(t, r, i) && SameLog(s, t) && t.hub == s.hub && Reach(t.sessions[i]) == Reach(s.sessions[i])
      && t.sessions[i].phase ==
         if s.rotation.LogRenamed? then Live else ReadingActive(ActiveStart(s), |s.cuts| - 1)
  {
    var s1 := Next(s, EndOfBak(i));
    SessionIs(s, i);
    StepFollows(s, r, i, EndOfBak(i));
    StepFollows(s1, r, i, OpenActive(i));
    TwoEvents(s, EndOfBak(i), OpenActive(i));
  }

  /** Reading the active log to its end, and going live. */
  lemma FinishFiles(s: State, r: ReplicaId, i: SessionId) returns (run: seq<Event>)
    requires Follows(s, r, i)
    requires s.sessions[i].phase == Live || s.sessions[i].phase == ReadingActive(ActiveStart(s), |s.cuts| - 1)
    ensures Legal(s, run)
    ensures var t := After(s, run);
      && Follows(t, r, i) && SameLog(s, t) && t.hub == s.hub && t.sessions[i].phase.Live?
      && Reach(t.sessions[i])
      == if s.sessions[i].phase.Live? then Reach(s.sessions[i]) else Max(Reach(s.sessions[i]), |s.log|)
  {
    if s.sessions[i].phase.Live? {
      run := [];
    } else {
      var files := ReadToEnd(s, r, i);
      var t := After(s, files);
      StepFollows(t, r, i, EndOfActive(i));
      assert [EndOfActive(i)][1..] == [];
      RunsCombine(s, files, [EndOfActive(i)]);
      run := files + [EndOfActive(i)];
    }
  }

  /** From the active log on. */
  lemma FromActive(s: State, r: ReplicaId, i: SessionId) returns (run: seq<Event>)
    requires Follows(s, r, i) && IsSubscribed(s.hub, i)
    requires s.sessions[i].phase == ReadingActive(ActiveStart(s), |s.cuts| - 1)
      || (s.sessions[i].phase.Live? && |s.log| <= Reach(s.sessions[i]))
    ensures Legal(s, run) && Follows(After(s, run), r, i) && SameLog(s, After(s, run))
    ensures Last(After(s, run).followers[r]) == Max(Reach(s.sessions[i]), |s.log|)
  {
    var files := FinishFiles(s, r, i);
    var live := DeliverLive(After(s, files), r, i);
    RunsCombine(s, files, live);
    run := files + live;
  }

  /** From the end of the archive on. */
  lemma FromArchiveEnd(s: State, r: ReplicaId, i: SessionId) returns (run: seq<Event>)
    requires Follows(s, r, i) && IsSubscribed(s.hub, i) && s.sessions[i].phase.ReadingBak?
    requires NextPosition(s.sessions[i].phase) == FileEnd(s, s.sessions[i].phase)
    requires ActiveStart(s) <= Reach(s.sessions[i])
    ensures Legal(s, run) && Follows(After(s, run), r, i) && SameLog(s, After(s, run))
    ensures Last(After(s, run).followers[r]) == Max(Reach(s.sessions[i]), |s.log|)
  {
    SessionIs(s, i);
    GoOn(s, r, i);
    var opens := [EndOfBak(i), OpenActive(i)];
    var rest := FromActive(After(s, opens), r, i);
    RunsCombine(s, opens, rest);
    run := opens + rest;
  }

  /** From the archive on. */
  lemma FromArchive(s: State, r: ReplicaId, i: SessionId) returns (run: seq<Event>)
    requires Follows(s, r, i) && IsSubscribed(s.hub, i) && s.sessions[i].phase.ReadingBak?
    requires ActiveStart(s) <= Max(Reach(s.sessions[i]), FileEnd(s, s.sessions[i].phase))
    requires FileEnd(s, s.sessions[i].phase) <= |s.log|
    ensures Legal(s, run) && Follows(After(s, run), r, i) && SameLog(s, After(s, run))
    ensures Last(After(s, run).followers[r]) == Max(Reach(s.sessions[i]), |s.log|)
  {
    var archive := ReadToEnd(s, r, i);
    var rest := FromArchiveEnd(After(s, archive), r, i);
    RunsCombine(s, archive, rest);
    run := archive + rest;
  }

  /** A follower that connects while the files reach back to what it needs can be brought up to the end of the log. */
  lemma CatchUp(s: State, r: ReplicaId, i: SessionId) returns (run: seq<Event>)
    requires Inv(s) && Enabled(s, Connect(r, i)) && FilesReachBack(s, r)
    ensures Legal(s, run) && Follows(After(s, run), r, i) && SameLog(s, After(s, run))
    ensures run != [] && run[0] == Connect(r, i)
    ensures Last(After(s, run).followers[r]) == Max(Last(s.followers[r]), |s.log|)
  {
    Begin(s, r, i);
    var opens := [Connect(r, i), OpenBak(i)];
    var rest := FromArchive(After(s, opens), r, i);
    RunsCombine(s, opens, rest);
    run := opens + rest;
  }

  /** Whatever its stream has come to, a hole among others, a follower that drops it and connects again can be brought
      up to the end of the log. */
  lemma Reconnect(s: State, r: ReplicaId, i: SessionId) returns (run: seq<Event>)
    requires Inv(s) && Streaming(s, r) && i !in s.sessions && i !in s.hub.channels && FilesReachBack(s, r)
    ensures Legal(s, run) && Follows(After(s, run), r, i) && SameLog(s, After(s, run))
    ensures Last(After(s, run).followers[r]) == Max(Last(s.followers[r]), |s.log|)
  {
    Step(s, Disconnect(r));
    var rest := CatchUp(Next(s, Disconnect(r)), r, i);
    run := [Disconnect(r)] + rest;
    assert run[1..] == rest;
  }

  // ---------- a follower that is too far behind ----------

  /** The stream has sent nothing, and what it sends first lies beyond the next record the follower needs. */
  ghost predicate TooLate(s: State, i: SessionId, last: nat)
    requires i in s.sessions && i in s.hub.channels
  {
    var x := s.sessions[i];
    && x.from == last + 1
    && if x.wire != [] then x.wire[0].lsn > last + 1
       else x.lastSent == 0 && s.hub.channels[i].start > last && s.cuts != [] &&
            match x.phase
            case ToOpenBak => FilesStart(s) > last
            case ReadingBak(next, end) => ActiveStart(s) > last && (next == end || next > last)
            case ToOpenActive(_) => ActiveStart(s) > last
            case ReadingActive(next, _) => next > last
            case _ => true
  }

  ghost predicate Unserved(s: State, r: ReplicaId, i: SessionId, last: nat) {
    && r in s.followers && i in s.sessions && i in s.hub.channels
    && (Listens(s, r, i) ==> Last(s.followers[r]) == last && TooLate(s, i, last))
  }

  lemma TooLateOpens(s: State, i: SessionId, last: nat, e: Event)
    requires LogHolds(s) && InPhase(s, i) && TooLate(s, i, last) && Enabled(s, e)
    requires e == OpenBak(i) || e == OpenActive(i) || e == EndOfBak(i) || e == EndOfActive(i)
    ensures TooLate(Next(s, e), i, last)
  {
  }

  lemma TooLateSends(s: State, i: SessionId, last: nat, e: Event)
    requires LogHolds(s) && InPhase(s, i) && TooLate(s, i, last) && Enabled(s, e)
    requires ChannelHolds(s.log, s.announced, s.hub.channels[i], IsSubscribed(s.hub, i))
    requires e == ReadOne(i) || e == Drain(i)
    ensures TooLate(Next(s, e), i, last)
  {
  }

  lemma TooLateEnds(s: State, i: SessionId, last: nat, e: Event)
    requires InPhase(s, i) && TooLate(s, i, last) && Enabled(s, e) && (e == Overflow(i) || e == Cancel(i))
    ensures TooLate(Next(s, e), i, last)
  {
  }

  lemma TooLateOwn(s: State, i: SessionId, last: nat, e: Event)
    requires LogHolds(s) && SessionsHold(s) && ChannelsHold(s) && InPhase(s, i)
    requires TooLate(s, i, last) && Enabled(s, e) && IsOwn(e, i)
    ensures TooLate(Next(s, e), i, last)
  {
    SessionLogged(s, i);
    if e == ReadOne(i) || e == Drain(i) {
      TooLateSends(s, i, last, e);
    } else if e == Overflow(i) || e == Cancel(i) {
      TooLateEnds(s, i, last, e);
    } else {
      TooLateOpens(s, i, last, e);
    }
  }

  lemma SessionLogged(s: State, i: SessionId)
    requires SessionsHold(s) && ChannelsHold(s) && i in s.sessions
    ensures i in s.hub.channels && SessionHolds(s.log, s.cuts, s.hub.channels[i], s.sessions[i])
    ensures ChannelHolds(s.log, s.announced, s.hub.channels[i], IsSubscribed(s.hub, i))
  {
  }

  lemma TooLateOthers(s: State, t: State, i: SessionId, last: nat)
    requires LogHolds(s) && LeftAlone(s, t, i) && TooLate(s, i, last) && t.sessions[i].wire == s.sessions[i].wire
    requires t.cuts != [] && ActiveStart(t) >= ActiveStart(s) && FilesStart(t) >= FilesStart(s)
    ensures TooLate(t, i, last)
  {
  }

  lemma FilesMoveOn(s: State, e: Event)
    requires LogHolds(s) && Enabled(s, e)
    ensures Next(s, e).cuts != [] && ActiveStart(Next(s, e)) >= ActiveStart(s)
    ensures FilesStart(Next(s, e)) >= FilesStart(s)
  {
  }

  lemma UnservedStep(s: State, r: ReplicaId, i: SessionId, last: nat, e: Event)
    requires Inv(s) && Unserved(s, r, i, last) && Enabled(s, e)
    ensures Unserved(Next(s, e), r, i, last)
  {
    var t := Next(s, e);
    if IsOwn(e, i) {
      if Listens(s, r, i) {
        TooLateOwn(s, i, last, e);
      }
    } else {
      OthersLeave(s, i, e);
      FilesMoveOn(s, e);
      if Listens(t, r, i) {
        ListensToOwn(s, r, i);
        if e.Receive? && Listens(s, e.replica, i) {
          ListensToOwn(s, e.replica, i);
        }
        TooLateOthers(s, t, i, last);
      }
    }
  }

  lemma {:induction false} UnservedRun(s: State, r: ReplicaId, i: SessionId, last: nat, run: seq<Event>)
    requires Inv(s) && Unserved(s, r, i, last) && Legal(s, run)
    ensures Unserved(After(s, run), r, i, last)
    decreases |run|
  {
    if run != [] {
      UnservedStep(s, r, i, last, run[0]);
      Step(s, run[0]);
      UnservedRun(Next(s, run[0]), r, i, last, run[1..]);
    }
  }

  /** The run begins by connecting, and at its end the follower, still on that stream, has everything. */
  ghost predicate Serves(s: State, r: ReplicaId, i: SessionId, run: seq<Event>) {
    && run != [] && run[0] == Connect(r, i) && Legal(s, run)
    && Listens(After(s, run), r, i) && SameLog(s, After(s, run)) && Last(After(s, run).followers[r]) == |s.log|
  }

  /** The run begins by connecting, and at its end the follower, still on that stream, has applied something. */
  ghost predicate Advances(s: State, r: ReplicaId, i: SessionId, run: seq<Event>) {
    && run != [] && run[0] == Connect(r, i) && Legal(s, run)
    && Listens(After(s, run), r, i) && Last(After(s, run).followers[r]) > Last(s.followers[r])
  }

  /** A follower that lacks records and connects can be brought up to the end of the log if the files reach back to
      what it needs, and otherwise will not be brought a single record further on that connection, whatever happens. */
  lemma ServedExactly(s: State, r: ReplicaId, i: SessionId)
    requires Inv(s) && Enabled(s, Connect(r, i)) && Last(s.followers[r]) < |s.log|
    ensures FilesReachBack(s, r) <==> exists run :: Serves(s, r, i, run)
    ensures FilesReachBack(s, r) <==> exists run :: Advances(s, r, i, run)
  {
    if FilesReachBack(s, r) {
      var run := CatchUp(s, r, i);
      assert Serves(s, r, i, run) && Advances(s, r, i, run);
    } else {
      forall run | run != [] && run[0] == Connect(r, i) && Legal(s, run)
        ensures !Serves(s, r, i, run) && !Advances(s, r, i, run)
      {
        NeverServed(s, r, i, run);
      }
    }
  }

  lemma NeverServed(s: State, r: ReplicaId, i: SessionId, run: seq<Event>)
    requires Inv(s) && Enabled(s, Connect(r, i)) && !FilesReachBack(s, r)
    requires run != [] && run[0] == Connect(r, i) && Legal(s, run)
    ensures Listens(After(s, run), r, i) ==> Last(After(s, run).followers[r]) == Last(s.followers[r])
  {
    Step(s, Connect(r, i));
    UnservedRun(Next(s, Connect(r, i)), r, i, Last(s.followers[r]), run[1..]);
  }

  // ---------- streams that have ended ----------

  ghost predicate IsOver(s: State, i: SessionId, sent: nat) {
    && i in s.sessions && i in s.hub.channels && s.sessions[i].phase.Ended? && s.sessions[i].lastSent == sent
    && !IsSubscribed(s.hub, i)
  }

  lemma OverUnsubscribed(s: State, i: SessionId, e: Event)
    requires HubHolds(s.hub) && i in s.hub.channels && !IsSubscribed(s.hub, i) && Enabled(s, e)
    ensures i in Next(s, e).hub.channels && !IsSubscribed(Next(s, e).hub, i)
  {
    if e.Announce? {
      SentHolds(s.hub, s.log[s.announced]);
    }
  }

  lemma OverStep(s: State, i: SessionId, sent: nat, e: Event)
    requires HubHolds(s.hub) && IsOver(s, i, sent) && Enabled(s, e)
    ensures IsOver(Next(s, e), i, sent)
  {
    OverUnsubscribed(s, i, e);
    if !IsOwn(e, i) {
      OthersLeave(s, i, e);
    }
  }

  lemma {:induction false} OverRun(s: State, i: SessionId, sent: nat, run: seq<Event>)
    requires Inv(s) && IsOver(s, i, sent) && Legal(s, run)
    ensures IsOver(After(s, run), i, sent)
    decreases |run|
  {
    if run != [] {
      OverStep(s, i, sent, run[0]);
      Step(s, run[0]);
      OverRun(Next(s, run[0]), i, sent, run[1..]);
    }
  }

  /** A stream that was cancelled, or ended because its channel overflowed, never sends again, and its channel is never
      subscribed again. */
  lemma EndedForGood(s: State, i: SessionId, e: Event, run: seq<Event>)
    requires Inv(s) && Enabled(s, e) && (e == Cancel(i) || e == Overflow(i)) && Legal(Next(s, e), run)
    ensures var t := After(Next(s, e), run);
      i in t.sessions && t.sessions[i].lastSent == s.sessions[i].lastSent && !IsSubscribed(t.hub, i)
  {
    Step(s, e);
    SessionIs(s, i);
    OverRun(Next(s, e), i, s.sessions[i].lastSent, run);
  }

  // ---------- one more record ----------

  /** A record committed while the follower is subscribed and its channel has room reaches it. */
  lemma CommitReaches(s: State, r: ReplicaId, i: SessionId, kind: byte, key: Bytes, value: Bytes)
    returns (run: seq<Event>)
    requires Follows(s, r, i) && s.sessions[i].phase.Live? && IsSubscribed(s.hub, i)
    requires Enabled(s, Commit(kind, key, value)) && |s.hub.channels[i].queue| < BUFFER
    requires Reach(s.sessions[i]) <= |s.log|
    ensures Legal(s, [Commit(kind, key, value)] + run) && Follows(After(s, [Commit(kind, key, value)] + run), r, i)
    ensures var t := After(s, [Commit(kind, key, value)] + run);
      t.log == s.log + [Record(|s.log| + 1, kind, key, value)] && Last(t.followers[r]) == |t.log|
  {
    var s1 := Next(s, Commit(kind, key, value));
    StepFollows(s, r, i, Commit(kind, key, value));
    var s2 := Next(s1, Announce);
    AnnounceLeaves(s1, i);
    SentHolds(s1.hub, s1.log[s1.announced]);
    StepFollows(s1, r, i, Announce);
    var live := DeliverLive(s2, r, i);
    run := [Announce] + live;
    assert ([Commit(kind, key, value)] + run)[1..] == run;
  }

  // ---------- acknowledgements ----------

  /** What arrives at the leader is how far the follower had got when it acknowledged. */
  lemma Acknowledged(s: State, r: ReplicaId)
    requires Inv(s) && r in s.followers
    ensures var ack := Ack(r, Last(s.followers[r]));
      && Legal(s, [SendAck(r), DeliverAck(ack)])
      && After(s, [SendAck(r), DeliverAck(ack)]).acks == s.acks[r := Last(s.followers[r])]
  {
    var ack := Ack(r, Last(s.followers[r]));
    TwoEvents(s, SendAck(r), DeliverAck(ack));
  }

  /** The leader keeps what arrived last: of two acknowledgements the higher one, if that is not the first to arrive. */
  lemma AckOvertaken(s: State, first: Ack, second: Ack)
    requires first in s.acksSent && second in s.acksSent && first.replica == second.replica
    ensures Legal(s, [DeliverAck(first), DeliverAck(second)])
    ensures var acks := After(s, [DeliverAck(first), DeliverAck(second)]).acks;
      && first.replica in acks
      && (acks[first.replica] == Max(first.lsn, second.lsn) <==> first.lsn <= second.lsn)
  {
    TwoEvents(s, DeliverAck(first), DeliverAck(second));
  }

  /** How far a follower has got at each moment of a run. */
  ghost predicate WasThere(s: State, run: seq<Event>, a: Ack)
    requires Legal(s, run)
    decreases |run|
  {
    || (a.replica in s.followers && Last(s.followers[a.replica]) == a.lsn)
    || (run != [] && WasThere(Next(s, run[0]), run[1..], a))
  }

  /** Every acknowledgement sent in a run, or delivered in it, is how far its follower had got at some moment. */
  lemma {:induction false} AcksAreTrue(s: State, run: seq<Event>)
    requires Legal(s, run)
    ensures forall a :: a in After(s, run).acksSent ==> a in s.acksSent || WasThere(s, run, a)
    ensures forall r :: r in After(s, run).acks ==>
      || (r in s.acks && s.acks[r] == After(s, run).acks[r])
      || Ack(r, After(s, run).acks[r]) in s.acksSent || WasThere(s, run, Ack(r, After(s, run).acks[r]))
    decreases |run|
  {
    if run != [] {
      AcksAreTrue(Next(s, run[0]), run[1..]);
    }
  }

  // ---------- rotations ----------

  /** A rotation keeps exactly what the active log held readable, as the archive, and begins an empty log. */
  lemma RotationKeepsLast(s: State)
    requires LogHolds(s) && s.rotation.Idle? && s.announced == |s.log|
    ensures Legal(s, [RemoveArchive, RenameLog, CreateLog])
    ensures var t := After(s, [RemoveArchive, RenameLog, CreateLog]);
      && t.log == s.log && BakStart(t) == ActiveStart(s) && BakEnd(t) == ActiveStart(t) == |s.log|
      && FilesStart(t) == ActiveStart(s)
  {
    var run := [RemoveArchive, RenameLog, CreateLog];
    assert run[1..] == [RenameLog, CreateLog] && run[1..][1..] == [CreateLog] && run[1..][1..][1..] == [];
  }
}
