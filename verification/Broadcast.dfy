/** The leader's fan-out: one bounded channel per subscribed replica, and eviction of those that fall behind. */
module Broadcasts {
  import opened Types
  import opened WalRecords

  type ReplicaId = int
  type SessionId = int

  /** How many records a channel buffers. */
  const BUFFER := 1024

  /** A channel: what it holds, how many records had been announced before the first of them, and whether it is closed.
      */
  datatype Channel = Channel(replica: ReplicaId, start: nat, queue: seq<Record>, closed: bool)

  /** The channel each replica is subscribed to, and all the channels ever made. */
  datatype Hub = Hub(subscribers: map<ReplicaId, SessionId>, channels: map<SessionId, Channel>)

  predicate IsSubscribed(h: Hub, c: SessionId) {
    c in h.channels && h.channels[c].replica in h.subscribers && h.subscribers[h.channels[c].replica] == c
  }

  ghost predicate HubHolds(h: Hub) {
    forall r :: r in h.subscribers ==>
      && h.subscribers[r] in h.channels && h.channels[h.subscribers[r]].replica == r
      && !h.channels[h.subscribers[r]].closed
  }

  function Closed(h: Hub, c: SessionId): map<SessionId, Channel>
    requires c in h.channels
  {
    h.channels[c := h.channels[c].(closed := true)]
  }

  /** A new channel for the replica; the one it had is closed. */
  function Subscribed(h: Hub, r: ReplicaId, c: SessionId, announced: nat): Hub
    requires r in h.subscribers ==> h.subscribers[r] in h.channels
  {
    var channels := if r in h.subscribers then Closed(h, h.subscribers[r]) else h.channels;
    Hub(h.subscribers[r := c], channels[c := Channel(r, announced, [], false)])
  }

  /** A channel that is still the replica's is taken off and closed; one that was replaced or evicted is left alone. */
  function Unsubscribed(h: Hub, c: SessionId): Hub {
    if IsSubscribed(h, c) then Hub(h.subscribers - {h.channels[c].replica}, Closed(h, c)) else h
  }

  function Offered(c: Channel, m: Record): Channel {
    if |c.queue| < BUFFER then c.(queue := c.queue + [m]) else c.(closed := true)
  }

  predicate HasRoom(h: Hub, r: ReplicaId)
    requires r in h.subscribers
  {
    h.subscribers[r] in h.channels && |h.channels[h.subscribers[r]].queue| < BUFFER
  }

  /** Every subscriber with room gets the record; every one without is evicted. */
  function Sent(h: Hub, m: Record): Hub {
    Hub(map r | r in h.subscribers && HasRoom(h, r) :: h.subscribers[r],
        map c | c in h.channels :: if IsSubscribed(h, c) then Offered(h.channels[c], m) else h.channels[c])
  }

  lemma SubscribedHolds(h: Hub, r: ReplicaId, c: SessionId, announced: nat)
    requires HubHolds(h) && c !in h.channels
    ensures HubHolds(Subscribed(h, r, c, announced))
  {
  }

  lemma UnsubscribedHolds(h: Hub, c: SessionId)
    requires HubHolds(h)
    ensures HubHolds(Unsubscribed(h, c))
  {
  }

  lemma SentHolds(h: Hub, m: Record)
    requires HubHolds(h)
    ensures HubHolds(Sent(h, m))
    ensures forall c :: c in h.channels ==>
      (IsSubscribed(Sent(h, m), c) <==> IsSubscribed(h, c) && |h.channels[c].queue| < BUFFER)
  {
  }

  /** The broadcaster changes its tables in place, under its lock. */
  class Broadcaster {
    var subscribers: map<ReplicaId, SessionId>
    var channels: map<SessionId, Channel>

    ghost function View(): Hub
      reads this
    {
      Hub(subscribers, channels)
    }

    constructor ()
      ensures View() == Hub(map[], map[]) && HubHolds(View())
    {
      subscribers, channels := map[], map[];
    }

    method Close(c: SessionId)
      requires c in channels
      modifies `channels
      ensures channels == Closed(old(View()), c)
    {
      channels := channels[c := channels[c].(closed := true)];
    }

    method Subscribe(r: ReplicaId, c: SessionId, announced: nat)
      requires HubHolds(View()) && c !in channels
      modifies this
      ensures HubHolds(View()) && View() == Subscribed(old(View()), r, c, announced)
    {
      SubscribedHolds(View(), r, c, announced);
      if r in subscribers {
        var before := subscribers[r];
        subscribers := subscribers - {r};
        Close(before);
      }
      subscribers := subscribers[r := c];
      channels := channels[c := Channel(r, announced, [], false)];
    }

    method Unsubscribe(r: ReplicaId, c: SessionId)
      requires HubHolds(View()) && c in channels && channels[c].replica == r
      modifies this
      ensures HubHolds(View()) && View() == Unsubscribed(old(View()), c)
    {
      UnsubscribedHolds(View(), c);
      if r in subscribers && subscribers[r] == c {
        subscribers := subscribers - {r};
        Close(c);
      }
    }

    /** Offers the record to one subscriber. */
    method Offer(r: ReplicaId, m: Record)
      requires r in subscribers && subscribers[r] in channels
      modifies this
      ensures channels == old(channels)[old(subscribers)[r] := Offered(old(channels)[old(subscribers)[r]], m)]
      ensures subscribers == if old(HasRoom(View(), r)) then old(subscribers) else old(subscribers) - {r}
    {
      var c := subscribers[r];
      if |channels[c].queue| < BUFFER {
        channels := channels[c := channels[c].(queue := channels[c].queue + [m])];
      } else {
        subscribers := subscribers - {r};
        Close(c);
      }
    }

    /** Goes through the subscribers in no particular order. */
    method Broadcast(m: Record)
      requires HubHolds(View())
      modifies this
      ensures HubHolds(View()) && View() == Sent(old(View()), m)
    {
      ghost var h := View();
      SentHolds(h, m);
      var todo := subscribers.Keys;
      while todo != {}
        invariant HubHolds(h) && todo <= h.subscribers.Keys && PartlySent(h, View(), m, todo)
        decreases |todo|
      {
        var r := AnyOf(todo);
        PartlySentStep(h, View(), m, todo, r);
        Offer(r, m);
        todo := todo - {r};
      }
      PartlySentEnds(h, View(), m);
    }
  }

  function MaybeOffered(h: Hub, c: SessionId, m: Record, todo: set<ReplicaId>): Channel
    requires c in h.channels
  {
    if IsSubscribed(h, c) && h.channels[c].replica !in todo then Offered(h.channels[c], m) else h.channels[c]
  }

  /** The record has been offered to every subscriber but those still to do. */
  ghost predicate PartlySent(h: Hub, now: Hub, m: Record, todo: set<ReplicaId>) {
    && now.channels.Keys == h.channels.Keys
    && (forall c :: c in h.channels ==> now.channels[c] == MaybeOffered(h, c, m, todo))
    && (forall r :: r in now.subscribers <==> r in h.subscribers && (r in todo || HasRoom(h, r)))
    && (forall r :: r in now.subscribers ==> now.subscribers[r] == h.subscribers[r])
  }

  lemma PartlySentStep(h: Hub, now: Hub, m: Record, todo: set<ReplicaId>, r: ReplicaId)
    requires HubHolds(h) && todo <= h.subscribers.Keys && r in todo && PartlySent(h, now, m, todo)
    ensures r in now.subscribers && now.subscribers[r] in now.channels
    ensures var c := h.subscribers[r];
            PartlySent(h, Hub(if HasRoom(now, r) then now.subscribers else now.subscribers - {r},
                              now.channels[c := Offered(now.channels[c], m)]), m, todo - {r})
  {
  }

  lemma PartlySentEnds(h: Hub, now: Hub, m: Record)
    requires HubHolds(h) && PartlySent(h, now, m, {})
    ensures now == Sent(h, m)
  {
    var sent := Sent(h, m);
    assert now.channels == sent.channels;
    assert forall r :: r in now.subscribers <==> r in sent.subscribers;
    assert now.subscribers == sent.subscribers;
  }
}
