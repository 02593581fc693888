/** What becomes of a stream that has opened a file beginning beyond what its replica needs next. */
module ReplicationHoles {
  import opened Types
  import opened WalRecords
  import opened Broadcasts
  import opened Replications
  import opened ReplicationSafety
  import opened ReplicationHandoff

  /** What the stream sends next lies beyond the next record its replica needs. */
  ghost predicate Hole(s: State, i: SessionId) {
    && i in s.sessions && i in s.hub.channels
    && match s.sessions[i].phase
       case Live => s.hub.channels[i].start > Reach(s.sessions[i])
       case p => HasMore(s, p) && NextPosition(p) > Reach(s.sessions[i])
  }

  /** A stream stops being whole by stepping into a hole, unless the file it opens holds nothing. */
  lemma LateOpen(s: State, i: SessionId, e: Event)
    requires Inv(s) && Enabled(s, e) && (e == OpenBak(i) || e == OpenActive(i))
    requires s.sessions[i].whole && !Next(s, e).sessions[i].whole
    ensures e.OpenBak? ==> (Hole(Next(s, e), i) <==> BakStart(s) < BakEnd(s))
    ensures e.OpenActive? ==> (Hole(Next(s, e), i) <==> s.rotation.LogRenamed? || ActiveStart(s) < |s.log|)
  {
    SessionIs(s, i);
  }

  lemma HoleLeftAlone(s: State, t: State, i: SessionId)
    requires LogHolds(s) && Hole(s, i) && LeftAlone(s, t, i)
    ensures Hole(t, i)
  {
  }

  // ---------- a gap on the wire ----------

  /** The follower, as long as it listens to the stream, has a gap ahead of it. */
  ghost predicate GapAhead(s: State, r: ReplicaId, i: SessionId) {
    r in s.followers && i in s.sessions && !GapFree(Last(s.followers[r]), s.sessions[i].wire)
  }

  ghost predicate Listens(s: State, r: ReplicaId, i: SessionId) {
    r in s.followers && s.followers[r].session == Some(i)
  }

  lemma ListensToOwn(s: State, r: ReplicaId, i: SessionId)
    requires LinksHold(s) && Listens(s, r, i)
    ensures i in s.sessions && s.sessions[i].replica == r
  {
    assert LinkedTo(s, r, i);
  }

  lemma SendKeepsGap(s: State, r: ReplicaId, i: SessionId, e: Event)
    requires Listens(s, r, i) && GapAhead(s, r, i) && Enabled(s, e) && (e == ReadOne(i) || e == Drain(i))
    ensures GapAhead(Next(s, e), r, i)
  {
    SendOne(Last(s.followers[r]), s.sessions[i].wire,
            if e.Drain? then s.hub.channels[i].queue[0] else s.log[NextPosition(s.sessions[i].phase)]);
  }

  lemma ReceiveKeepsGap(s: State, r: ReplicaId, i: SessionId, e: Event)
    requires LinksHold(s) && Listens(s, r, i) && GapAhead(s, r, i) && Enabled(s, e) && e.Receive?
    ensures Listens(Next(s, e), r, i) ==> GapAhead(Next(s, e), r, i)
  {
    ListensToOwn(s, r, i);
    if Listens(s, e.replica, i) {
      ListensToOwn(s, e.replica, i);
    }
  }

  lemma GapStays(s: State, r: ReplicaId, i: SessionId, e: Event)
    requires LinksHold(s) && Listens(s, r, i) && GapAhead(s, r, i) && Enabled(s, e)
    ensures Listens(Next(s, e), r, i) ==> GapAhead(Next(s, e), r, i)
  {
    if e == ReadOne(i) || e == Drain(i) {
      SendKeepsGap(s, r, i, e);
    } else if e.Receive? {
      ReceiveKeepsGap(s, r, i, e);
    }
  }

  /** The record a stream in a hole sends next is a gap. */
  lemma HoleSends(s: State, r: ReplicaId, i: SessionId, e: Event)
    requires Inv(s) && Listens(s, r, i) && Hole(s, i) && Enabled(s, e) && (e == ReadOne(i) || e == Drain(i))
    ensures GapAhead(Next(s, e), r, i)
  {
    SessionIs(s, i);
    if e == ReadOne(i) {
      HoleSendsGap(s, r, i);
    } else {
      HoleDrainsGap(s, r, i);
    }
  }

  lemma HoleOwnEvents(s: State, i: SessionId, e: Event)
    requires Hole(s, i) && Enabled(s, e) && IsOwn(e, i)
    ensures e == ReadOne(i) || e == Drain(i) || e == Overflow(i) || e == Cancel(i)
  {
  }

  /** Otherwise it stays there, or the stream ends. */
  lemma HoleStays(s: State, i: SessionId, e: Event)
    requires LogHolds(s) && ChannelsHold(s) && Hole(s, i) && Enabled(s, e) && e != ReadOne(i) && e != Drain(i)
    ensures i in Next(s, e).sessions && Next(s, e).sessions[i].lastSent == s.sessions[i].lastSent
    ensures Hole(Next(s, e), i) || Next(s, e).sessions[i].phase.Ended?
  {
    if IsOwn(e, i) {
      HoleOwnEvents(s, i, e);
    } else {
      OthersLeave(s, i, e);
      HoleLeftAlone(s, Next(s, e), i);
    }
  }

  /** The stream has sent nothing since, or what it sent leaves the follower with a gap. */
  ghost predicate Stuck(s: State, r: ReplicaId, i: SessionId, sent: nat) {
    && r in s.followers && i in s.sessions
    && (Listens(s, r, i) ==>
         GapAhead(s, r, i) || (s.sessions[i].lastSent == sent && (Hole(s, i) || s.sessions[i].phase.Ended?)))
  }

  lemma StuckStep(s: State, r: ReplicaId, i: SessionId, sent: nat, e: Event)
    requires Inv(s) && Stuck(s, r, i, sent) && Enabled(s, e)
    ensures Stuck(Next(s, e), r, i, sent)
  {
    if Listens(s, r, i) {
      if GapAhead(s, r, i) {
        GapStays(s, r, i, e);
      } else if Hole(s, i) {
        if e == ReadOne(i) || e == Drain(i) {
          HoleSends(s, r, i, e);
        } else {
          HoleStays(s, i, e);
        }
      }
    }
  }

  lemma {:induction false} StuckRun(s: State, r: ReplicaId, i: SessionId, sent: nat, run: seq<Event>)
    requires Inv(s) && Stuck(s, r, i, sent) && Legal(s, run)
    ensures Stuck(After(s, run), r, i, sent)
    decreases |run|
  {
    if run != [] {
      StuckStep(s, r, i, sent, run[0]);
      Step(s, run[0]);
      StuckRun(Next(s, run[0]), r, i, sent, run[1..]);
    }
  }

  /** However the run goes on, a stream in a hole sends nothing, or it sends a gap; it never mends. */
  lemma HoleNeverMends(s: State, r: ReplicaId, i: SessionId, run: seq<Event>)
    requires Inv(s) && Listens(s, r, i) && Hole(s, i) && Legal(s, run)
    ensures var t := After(s, run);
      Listens(t, r, i) ==> i in t.sessions && (t.sessions[i].lastSent == s.sessions[i].lastSent || GapAhead(t, r, i))
  {
    StuckRun(s, r, i, s.sessions[i].lastSent, run);
  }
}
