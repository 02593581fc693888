/** What every step of replication keeps: no record is skipped, repeated or reordered on a follower. */
module ReplicationSafety {
  import opened Types
  import opened WalRecords
  import opened Broadcasts
  import opened Replications

  // ---------- streams ----------

  /** What the replica will have applied when it has received everything on the wire. */
  function Frontier(last: nat, wire: seq<Record>): nat
    decreases |wire|
  {
    if wire == [] then last else Frontier(Max(last, wire[0].lsn), wire[1..])
  }

  /** No message on the wire will be more than one ahead when it arrives. */
  ghost predicate GapFree(last: nat, wire: seq<Record>)
    decreases |wire|
  {
    wire == [] || (wire[0].lsn <= last + 1 && GapFree(Max(last, wire[0].lsn), wire[1..]))
  }

  /** One more message keeps a stream free of gaps exactly when it follows on from what came before. */
  lemma {:induction false} SendOne(last: nat, wire: seq<Record>, m: Record)
    ensures Frontier(last, wire + [m]) == Max(Frontier(last, wire), m.lsn)
    ensures GapFree(last, wire + [m]) <==> GapFree(last, wire) && m.lsn <= Frontier(last, wire) + 1
    decreases |wire|
  {
    if wire == [] {
      assert [] + [m] == [m] && [m][1..] == [];
    } else {
      SendOne(Max(last, wire[0].lsn), wire[1..], m);
      assert (wire + [m])[1..] == wire[1..] + [m];
    }
  }

  // ---------- the invariant ----------

  ghost predicate LogHolds(s: State) {
    && (forall i :: 0 <= i < |s.log| ==> s.log[i].lsn == i + 1)
    && s.announced <= |s.log| <= s.announced + 1
    && s.cuts != [] && s.cuts[0] == 0 && (forall i :: 0 <= i < |s.cuts| ==> s.cuts[i] <= s.announced)
    && (forall i, j :: 0 <= i <= j < |s.cuts| ==> s.cuts[i] <= s.cuts[j])
    && (!s.rotation.Idle? ==> s.announced == |s.log|) && (s.rotation.LogRenamed? ==> ActiveStart(s) == |s.log|)
  }

  ghost predicate IsLogged(log: seq<Record>, m: Record) {
    1 <= m.lsn <= |log| && log[m.lsn - 1] == m
  }

  /** A channel holds an unbroken run of the log; while it is subscribed, the run reaches to the last record announced.
      */
  ghost predicate ChannelHolds(log: seq<Record>, announced: nat, c: Channel, subscribed: bool) {
    && c.start + |c.queue| <= announced <= |log|
    && (subscribed ==> c.start + |c.queue| == announced)
    && forall j :: 0 <= j < |c.queue| ==> c.queue[j] == log[c.start + j]
  }

  ghost predicate PhaseHolds(length: nat, cuts: seq<nat>, start: nat, p: Phase) {
    match p
    case ReadingBak(n, end) => n <= end <= length
    case ToOpenActive(end) => end <= length
    case ReadingActive(n, gen) =>
      gen < |cuts| && n <= GenEnd(cuts, length, gen) && start <= GenEnd(cuts, length, gen) <= length
    case _ => true
  }

  /** What comes next, in the file or from the channel, follows on from what was sent. */
  ghost predicate Covered(start: nat, x: Session) {
    match x.phase
    case ReadingBak(n, _) => n <= Reach(x)
    case ToOpenActive(end) => end <= Reach(x)
    case ReadingActive(n, _) => n <= Reach(x)
    case Live => start <= Reach(x)
    case _ => true
  }

  ghost predicate SessionHolds(log: seq<Record>, cuts: seq<nat>, c: Channel, x: Session) {
    && x.from >= 1 && c.replica == x.replica && x.lastSent <= |log|
    && (forall j :: 0 <= j < |x.wire| ==> IsLogged(log, x.wire[j]))
    && PhaseHolds(|log|, cuts, c.start, x.phase)
    && (x.whole ==> Covered(c.start, x))
  }

  /** What a follower has applied is one unbroken run of the leader's log. */
  ghost predicate FollowerHolds(log: seq<Record>, f: Follower) {
    forall i :: 0 <= i < |f.applied| ==> IsAt(log, f.base + i, f.applied[i])
  }

  ghost predicate IsAt(log: seq<Record>, n: nat, m: Record) {
    n < |log| && log[n] == m
  }

  lemma SameApplied(log: seq<Record>, log': seq<Record>, f: Follower, g: Follower)
    requires FollowerHolds(log, f) && log <= log' && g.base == f.base && g.applied == f.applied
    ensures FollowerHolds(log', g)
  {
  }

  ghost predicate LinkHolds(f: Follower, x: Session) {
    Frontier(Last(f), x.wire) == Reach(x) && (x.whole ==> GapFree(Last(f), x.wire))
  }

  ghost predicate ChannelsHold(s: State) {
    HubHolds(s.hub) && forall c :: c in s.hub.channels ==>
      ChannelHolds(s.log, s.announced, s.hub.channels[c], IsSubscribed(s.hub, c))
  }

  ghost predicate SessionsHold(s: State) {
    forall i :: i in s.sessions ==> i in s.hub.channels && SessionHolds(s.log, s.cuts, s.hub.channels[i], s.sessions[i])
  }

  ghost predicate FollowersHold(s: State) {
    forall r :: r in s.followers ==> FollowerHolds(s.log, s.followers[r])
  }

  ghost predicate LinksHold(s: State) {
    forall r :: r in s.followers && s.followers[r].session.Some? ==> LinkedTo(s, r, s.followers[r].session.value)
  }

  ghost predicate LinkedTo(s: State, r: ReplicaId, i: SessionId)
    requires r in s.followers
  {
    i in s.sessions && s.sessions[i].replica == r && LinkHolds(s.followers[r], s.sessions[i])
  }

  /** No acknowledgement, delivered or on its way, exceeds what the follower has applied. */
  ghost predicate AcksHold(s: State) {
    && (forall r :: r in s.acks ==> r in s.followers && s.acks[r] <= Last(s.followers[r]))
    && (forall a :: a in s.acksSent ==> a.replica in s.followers && a.lsn <= Last(s.followers[a.replica]))
  }

  ghost predicate Inv(s: State) {
    LogHolds(s) && ChannelsHold(s) && SessionsHold(s) && FollowersHold(s) && LinksHold(s) && AcksHold(s)
  }

  // ---------- one session at a time ----------

  lemma LinkAfterSend(f: Follower, x: Session, m: Record)
    requires LinkHolds(f, x) && m.lsn > x.lastSent && (x.whole ==> m.lsn <= Reach(x) + 1)
    ensures LinkHolds(f, WithSent(x, m))
  {
    SendOne(Last(f), x.wire, m);
  }

  lemma AdvanceKeeps(log: seq<Record>, cuts: seq<nat>, c: Channel, x: Session, n: nat)
    requires SessionHolds(log, cuts, c, x) && n < |log| && log[n].lsn == n + 1 && NextPosition(x.phase) == n
    requires match x.phase
      case ReadingBak(_, end) => n < end
      case ReadingActive(_, gen) => n < GenEnd(cuts, |log|, gen)
      case _ => false
    ensures SessionHolds(log, cuts, c, Advanced(x, log[n]))
    ensures x.whole ==> n <= Reach(x)
  {
  }

  lemma LinkAfterAdvance(f: Follower, x: Session, m: Record)
    requires LinkHolds(f, x) && (x.whole ==> m.lsn <= Reach(x) + 1)
    ensures LinkHolds(f, Advanced(x, m))
  {
    if m.lsn >= x.from && m.lsn > x.lastSent {
      LinkAfterSend(f, x, m);
    }
  }

  lemma DrainKeeps(log: seq<Record>, cuts: seq<nat>, announced: nat, c: Channel, x: Session, subscribed: bool)
    requires SessionHolds(log, cuts, c, x) && ChannelHolds(log, announced, c, subscribed) && x.phase.Live?
    requires c.queue != []
    requires c.start < |log| ==> log[c.start].lsn == c.start + 1
    ensures ChannelHolds(log, announced, Popped(c), subscribed)
    ensures SessionHolds(log, cuts, Popped(c), Drained(x, c.queue[0]))
    ensures x.whole ==> c.queue[0].lsn <= Reach(x) + 1
  {
  }

  lemma LinkAfterDrain(f: Follower, x: Session, m: Record)
    requires LinkHolds(f, x) && (x.whole ==> m.lsn <= Reach(x) + 1)
    ensures LinkHolds(f, Drained(x, m))
  {
    if m.lsn > x.lastSent {
      LinkAfterSend(f, x, m);
    }
  }

  /** The log has grown, or been cut once more. */
  lemma LogGrew(log: seq<Record>, cuts: seq<nat>, log': seq<Record>, cuts': seq<nat>, c: Channel, x: Session)
    requires SessionHolds(log, cuts, c, x) && log <= log' && (cuts' == cuts || (log' == log && cuts' == cuts + [|log|]))
    ensures SessionHolds(log', cuts', c, x)
  {
  }

  // ---------- one event at a time ----------

  /** Everyone but the session and the follower named is as before; what changed still holds. */
  lemma CommitStep(s: State, e: Event)
    requires Inv(s) && e.Commit? && Enabled(s, e)
    ensures Inv(Next(s, e))
  {
    var s' := Next(s, e);
    assert s.log <= s'.log;
    forall i | i in s'.sessions
      ensures SessionHolds(s'.log, s'.cuts, s'.hub.channels[i], s'.sessions[i])
    {
      LogGrew(s.log, s.cuts, s'.log, s'.cuts, s'.hub.channels[i], s'.sessions[i]);
    }
    forall c | c in s'.hub.channels
      ensures ChannelHolds(s'.log, s'.announced, s'.hub.channels[c], IsSubscribed(s'.hub, c))
    {
      assert ChannelHolds(s.log, s.announced, s.hub.channels[c], IsSubscribed(s.hub, c));
    }
    forall r | r in s'.followers
      ensures FollowerHolds(s'.log, s'.followers[r])
    {
      SameApplied(s.log, s'.log, s.followers[r], s.followers[r]);
    }
    assert LogHolds(s');
    SameLinks(s, s');
  }

  lemma RotateStep(s: State, e: Event)
    requires Inv(s) && (e.RemoveArchive? || e.RenameLog? || e.CreateLog?) && Enabled(s, e)
    ensures Inv(Next(s, e))
  {
  }

  lemma SameLinks(s: State, s': State)
    requires LinksHold(s) && s'.sessions == s.sessions && s'.followers == s.followers
    ensures LinksHold(s')
  {
  }

  lemma ChannelAfterSend(log: seq<Record>, announced: nat, c: Channel, subscribed: bool)
    requires ChannelHolds(log, announced, c, subscribed) && announced < |log|
    ensures subscribed ==> ChannelHolds(log, announced + 1, Offered(c, log[announced]), |c.queue| < BUFFER)
    ensures ChannelHolds(log, announced + 1, c, false)
  {
  }

  lemma SessionSameStart(log: seq<Record>, cuts: seq<nat>, c: Channel, c': Channel, x: Session)
    requires SessionHolds(log, cuts, c, x) && c'.start == c.start && c'.replica == c.replica
    ensures SessionHolds(log, cuts, c', x)
  {
  }

  lemma AnnounceStep(s: State, e: Event)
    requires Inv(s) && e.Announce? && Enabled(s, e)
    ensures Inv(Next(s, e))
  {
    var s', m := Next(s, e), s.log[s.announced];
    SentHolds(s.hub, m);
    forall c | c in s'.hub.channels
      ensures ChannelHolds(s'.log, s'.announced, s'.hub.channels[c], IsSubscribed(s'.hub, c))
      ensures s'.hub.channels[c].start == s.hub.channels[c].start
      ensures s'.hub.channels[c].replica == s.hub.channels[c].replica
    {
      ChannelAfterSend(s.log, s.announced, s.hub.channels[c], IsSubscribed(s.hub, c));
    }
    forall i | i in s'.sessions
      ensures SessionHolds(s'.log, s'.cuts, s'.hub.channels[i], s'.sessions[i])
    {
      SessionSameStart(s.log, s.cuts, s.hub.channels[i], s'.hub.channels[i], s.sessions[i]);
    }
    SameLinks(s, s');
  }

  lemma JoinStep(s: State, e: Event)
    requires Inv(s) && e.Join? && Enabled(s, e)
    ensures Inv(Next(s, e))
  {
  }

  // ---------- events of one session ----------

  ghost predicate OnlySession(s: State, s': State, i: SessionId) {
    && s'.log == s.log && s'.announced == s.announced && s'.cuts == s.cuts && s'.rotation == s.rotation
    && s'.followers == s.followers
    && s'.acks == s.acks && s'.acksSent == s.acksSent
    && i in s.sessions && i in s'.sessions && s'.sessions == s.sessions[i := s'.sessions[i]]
  }

  /** A session that moved on, and its link if the follower still listens to it, keep everything else as it was. */
  lemma SessionStep(s: State, s': State, i: SessionId)
    requires Inv(s) && OnlySession(s, s', i) && s'.hub == s.hub
    requires SessionHolds(s.log, s.cuts, s.hub.channels[i], s'.sessions[i])
    requires s'.sessions[i].replica == s.sessions[i].replica
    requires forall f :: LinkHolds(f, s.sessions[i]) ==> LinkHolds(f, s'.sessions[i])
    ensures Inv(s')
  {
  }

  lemma LinksAfterSession(s: State, s': State, i: SessionId)
    requires LinksHold(s) && OnlySession(s, s', i) && s'.sessions[i].replica == s.sessions[i].replica
    requires forall f :: LinkHolds(f, s.sessions[i]) ==> LinkHolds(f, s'.sessions[i])
    ensures LinksHold(s')
  {
  }

  lemma SessionIs(s: State, i: SessionId)
    requires Inv(s) && i in s.sessions
    ensures i in s.hub.channels && SessionHolds(s.log, s.cuts, s.hub.channels[i], s.sessions[i])
    ensures ChannelHolds(s.log, s.announced, s.hub.channels[i], IsSubscribed(s.hub, i))
  {
  }

  lemma OpenBakStep(s: State, e: Event)
    requires Inv(s) && e.OpenBak? && Enabled(s, e)
    ensures Inv(Next(s, e))
  {
    SessionIs(s, e.session);
    SessionStep(s, Next(s, e), e.session);
  }

  lemma OpenActiveStep(s: State, e: Event)
    requires Inv(s) && e.OpenActive? && Enabled(s, e)
    ensures Inv(Next(s, e))
  {
    SessionIs(s, e.session);
    SessionStep(s, Next(s, e), e.session);
  }

  lemma EndOfBakStep(s: State, e: Event)
    requires Inv(s) && e.EndOfBak? && Enabled(s, e)
    ensures Inv(Next(s, e))
  {
    SessionIs(s, e.session);
    SessionStep(s, Next(s, e), e.session);
  }

  lemma EndOfActiveStep(s: State, e: Event)
    requires Inv(s) && e.EndOfActive? && Enabled(s, e)
    ensures Inv(Next(s, e))
  {
    SessionIs(s, e.session);
    SessionStep(s, Next(s, e), e.session);
  }

  lemma ReadOneStep(s: State, e: Event)
    requires Inv(s) && e.ReadOne? && Enabled(s, e)
    ensures Inv(Next(s, e))
  {
    var i, x := e.session, s.sessions[e.session];
    var n := NextPosition(x.phase);
    SessionIs(s, i);
    AdvanceKeeps(s.log, s.cuts, s.hub.channels[i], x, n);
    forall f | LinkHolds(f, x)
      ensures LinkHolds(f, Advanced(x, s.log[n]))
    {
      LinkAfterAdvance(f, x, s.log[n]);
    }
    SessionStep(s, Next(s, e), i);
  }

  lemma DrainStep(s: State, e: Event)
    requires Inv(s) && e.Drain? && Enabled(s, e)
    ensures Inv(Next(s, e))
  {
    var i, x, s' := e.session, s.sessions[e.session], Next(s, e);
    var c := s.hub.channels[i];
    SessionIs(s, i);
    DrainKeeps(s.log, s.cuts, s.announced, c, x, IsSubscribed(s.hub, i));
    forall f | LinkHolds(f, x)
      ensures LinkHolds(f, Drained(x, c.queue[0]))
    {
      LinkAfterDrain(f, x, c.queue[0]);
    }
    LinksAfterSession(s, s', i);
    assert forall k :: IsSubscribed(s'.hub, k) <==> IsSubscribed(s.hub, k);
    assert ChannelsHold(s');
  }

  /** An ended call sends no more; its channel is closed if it is still the replica's. */
  lemma EndStep(s: State, e: Event)
    requires Inv(s) && (e.Cancel? || e.Overflow?) && Enabled(s, e)
    ensures Inv(Next(s, e))
  {
    EndedKeeps(s, e.session);
  }

  function Ended(s: State, i: SessionId): State
    requires i in s.sessions
  {
    WithPhase(s, i, Phase.Ended).(hub := Unsubscribed(s.hub, i))
  }

  lemma EndedKeeps(s: State, i: SessionId)
    requires Inv(s) && i in s.sessions
    ensures Inv(Ended(s, i))
  {
    var s' := Ended(s, i);
    SessionIs(s, i);
    UnsubscribedHolds(s.hub, i);
    forall k | k in s'.hub.channels
      ensures ChannelHolds(s'.log, s'.announced, s'.hub.channels[k], IsSubscribed(s'.hub, k))
    {
      assert ChannelHolds(s.log, s.announced, s.hub.channels[k], IsSubscribed(s.hub, k));
    }
    forall k | k in s'.sessions
      ensures SessionHolds(s'.log, s'.cuts, s'.hub.channels[k], s'.sessions[k])
    {
      SessionSameStart(s.log, s.cuts, s.hub.channels[k], s'.hub.channels[k], s.sessions[k]);
    }
    LinksAfterSession(s, s', i);
  }

  // ---------- events of one follower ----------

  /** Connecting asks for the record after the last one applied; the call it replaces keeps its own channel, closed. */
  lemma ConnectStep(s: State, e: Event)
    requires Inv(s) && e.Connect? && Enabled(s, e)
    ensures Inv(Next(s, e))
  {
    var r, i, s' := e.replica, e.session, Next(s, e);
    var f := s.followers[r];
    SubscribedHolds(s.hub, r, i, s.announced);
    SameApplied(s.log, s.log, f, s'.followers[r]);
    forall k | k in s'.hub.channels
      ensures ChannelHolds(s'.log, s'.announced, s'.hub.channels[k], IsSubscribed(s'.hub, k))
    {
      if k != i {
        assert ChannelHolds(s.log, s.announced, s.hub.channels[k], IsSubscribed(s.hub, k));
      }
    }
    forall k | k in s'.sessions
      ensures SessionHolds(s'.log, s'.cuts, s'.hub.channels[k], s'.sessions[k])
    {
      if k != i {
        SessionSameStart(s.log, s.cuts, s.hub.channels[k], s'.hub.channels[k], s.sessions[k]);
      }
    }
    forall q | q in s'.followers && s'.followers[q].session.Some?
      ensures LinkedTo(s', q, s'.followers[q].session.value)
    {
      if q != r {
        assert LinkedTo(s, q, s.followers[q].session.value);
      }
    }
  }

  lemma ReceiveKeeps(log: seq<Record>, f: Follower, x: Session)
    requires FollowerHolds(log, f) && LinkHolds(f, x) && x.wire != [] && IsLogged(log, x.wire[0])
    ensures FollowerHolds(log, Received(f, x.wire[0])) && Last(Received(f, x.wire[0])) >= Last(f)
    ensures !IsGap(f, x.wire[0]) ==> LinkHolds(Received(f, x.wire[0]), x.(wire := x.wire[1..]))
  {
  }

  lemma SessionAfterReceive(log: seq<Record>, cuts: seq<nat>, c: Channel, x: Session)
    requires SessionHolds(log, cuts, c, x) && x.wire != []
    ensures SessionHolds(log, cuts, c, x.(wire := x.wire[1..]))
  {
  }

  lemma ReceiveStep(s: State, e: Event)
    requires Inv(s) && e.Receive? && Enabled(s, e)
    ensures Inv(Next(s, e))
  {
    var r, s' := e.replica, Next(s, e);
    var i := s.followers[r].session.value;
    assert LinkedTo(s, r, i);
    SessionIs(s, i);
    ReceiveKeeps(s.log, s.followers[r], s.sessions[i]);
    SessionAfterReceive(s.log, s.cuts, s.hub.channels[i], s.sessions[i]);
    forall q | q in s'.followers && s'.followers[q].session.Some?
      ensures LinkedTo(s', q, s'.followers[q].session.value)
    {
      assert LinkedTo(s, q, s.followers[q].session.value);
    }
  }

  lemma DisconnectStep(s: State, e: Event)
    requires Inv(s) && e.Disconnect? && Enabled(s, e)
    ensures Inv(Next(s, e))
  {
    var s' := Next(s, e);
    SameApplied(s.log, s.log, s.followers[e.replica], s'.followers[e.replica]);
    forall q | q in s'.followers && s'.followers[q].session.Some?
      ensures LinkedTo(s', q, s'.followers[q].session.value)
    {
      assert LinkedTo(s, q, s.followers[q].session.value);
    }
  }

  lemma AckStep(s: State, e: Event)
    requires Inv(s) && (e.SendAck? || e.DeliverAck?) && Enabled(s, e)
    ensures Inv(Next(s, e))
  {
    SameLinks(s, Next(s, e));
  }

  lemma Step(s: State, e: Event)
    requires Inv(s) && Enabled(s, e)
    ensures Inv(Next(s, e))
  {
    match e
    case Commit(_, _, _) => CommitStep(s, e);
    case Announce => AnnounceStep(s, e);
    case RemoveArchive => RotateStep(s, e);
    case RenameLog => RotateStep(s, e);
    case CreateLog => RotateStep(s, e);
    case Join(_, _) => JoinStep(s, e);
    case Connect(_, _) => ConnectStep(s, e);
    case OpenBak(_) => OpenBakStep(s, e);
    case ReadOne(_) => ReadOneStep(s, e);
    case EndOfBak(_) => EndOfBakStep(s, e);
    case OpenActive(_) => OpenActiveStep(s, e);
    case EndOfActive(_) => EndOfActiveStep(s, e);
    case Drain(_) => DrainStep(s, e);
    case Overflow(_) => EndStep(s, e);
    case Cancel(_) => EndStep(s, e);
    case Receive(_) => ReceiveStep(s, e);
    case Disconnect(_) => DisconnectStep(s, e);
    case SendAck(_) => AckStep(s, e);
    case DeliverAck(_) => AckStep(s, e);
  }

  // ---------- whole runs ----------

  lemma {:induction false} RunKeeps(s: State, run: seq<Event>)
    requires Inv(s) && Legal(s, run)
    ensures Inv(After(s, run))
    decreases |run|
  {
    if run != [] {
      Step(s, run[0]);
      RunKeeps(Next(s, run[0]), run[1..]);
    }
  }

  /** Whatever the interleaving, a follower has applied an unbroken run of the log, and acknowledged no more than that.
      */
  lemma AppliedIsARun(run: seq<Event>, r: ReplicaId)
    requires Legal(INITIAL, run) && r in After(INITIAL, run).followers
    ensures var s := After(INITIAL, run);
            var f := s.followers[r];
            (f.applied != [] ==> Last(f) <= |s.log| && f.applied == s.log[f.base..Last(f)])
            && (r in s.acks ==> s.acks[r] <= Last(f))
  {
    RunKeeps(INITIAL, run);
    var s := After(INITIAL, run);
    var f := s.followers[r];
    assert FollowerHolds(s.log, f);
    if f.applied != [] {
      assert IsAt(s.log, f.base + (|f.applied| - 1), f.applied[|f.applied| - 1]);
      assert forall i :: 0 <= i < |f.applied| ==> IsAt(s.log, f.base + i, f.applied[i]);
      assert f.applied == s.log[f.base..Last(f)];
    }
  }

  /** While every file a stream opened began where it had got to, the follower never sees a gap. */
  lemma WholeHasNoGap(s: State, r: ReplicaId)
    requires Inv(s) && Enabled(s, Receive(r)) && s.sessions[s.followers[r].session.value].whole
    ensures !IsGap(s.followers[r], s.sessions[s.followers[r].session.value].wire[0])
  {
  }
}
