/** The hub that fans commits out to subscribers (go/kdb/control/events.go). Every method runs under the hub's
    mutex, so an interleaving is a sequence of calls, with receives by the subscribers between them. */
module EventHub {
  /** A subscriber's channel. */
  datatype Channel = Channel(buffer: seq<nat>, closed: bool)

  const ROOM: nat := 16

  /** What happened on a channel: the events published while it was subscribed, what its subscriber received,
      which of those events were buffered, and which found the buffer full. */
  datatype History = History(offered: seq<nat>, received: seq<nat>, kept: seq<nat>, full: set<nat>)

  /** The events of `offered` at the places in `kept`. */
  ghost function Chosen(offered: seq<nat>, kept: seq<nat>): seq<nat>
    requires forall i :: 0 <= i < |kept| ==> kept[i] < |offered|
  {
    seq(|kept|, i requires 0 <= i < |kept| => offered[kept[i]])
  }

  /** Received and buffered events are a subsequence, in order, of those offered; the rest found no room. */
  ghost predicate InOrder(c: Channel, h: History) {
    && |c.buffer| <= ROOM
    && (forall i :: 0 <= i < |h.kept| ==> h.kept[i] < |h.offered|)
    && (forall i, k :: 0 <= i < k < |h.kept| ==> h.kept[i] < h.kept[k])
    && h.received + c.buffer == Chosen(h.offered, h.kept)
    && (forall k :: 0 <= k < |h.offered| ==> (k in h.kept <==> k !in h.full))
  }

  /** The non-blocking send of publish. */
  function Sent(c: Channel, ev: nat): Channel { if |c.buffer| < ROOM then c.(buffer := c.buffer + [ev]) else c }

  ghost function Recorded(c: Channel, h: History, ev: nat): History {
    var n := |h.offered|;
    if |c.buffer| < ROOM then h.(offered := h.offered + [ev], kept := h.kept + [n])
    else h.(offered := h.offered + [ev], full := h.full + {n})
  }

  /** The event has been offered, and kept or, if there was no room, not. */
  ghost predicate Offered(h: History, h': History, ev: nat, room: bool) {
    && h'.offered == h.offered + [ev] && h'.received == h.received
    && h'.kept == h.kept + (if room then [|h.offered|] else [])
    && h'.full == h.full + (if room then {} else {|h.offered|})
  }

  lemma SentOrNot(c: Channel, h: History, ev: nat)
    ensures Sent(c, ev).closed == c.closed && Sent(c, ev).buffer == c.buffer + if |c.buffer| < 16 then [ev] else []
    ensures Offered(h, Recorded(c, h, ev), ev, |c.buffer| < 16)
  {}

  lemma SentInOrder(c: Channel, h: History, ev: nat)
    requires InOrder(c, h) && forall k :: k in h.full ==> k < |h.offered|
    ensures InOrder(Sent(c, ev), Recorded(c, h, ev))
    ensures forall k :: k in Recorded(c, h, ev).full ==> k < |Recorded(c, h, ev).offered|
  {
    var h' := Recorded(c, h, ev);
    assert Chosen(h'.offered, h.kept) == Chosen(h.offered, h.kept);
    if |c.buffer| < ROOM {
      assert Chosen(h'.offered, h'.kept) == Chosen(h'.offered, h.kept) + [ev];
      assert h.received + (c.buffer + [ev]) == h.received + c.buffer + [ev];
    }
  }

  class Hub {
    var next: nat
    var subs: set<nat>               // the subscriptions the hub sends to
    var channels: map<nat, Channel>  // every channel made, as its subscriber sees it
    var closed: bool
    ghost var history: map<nat, History>

    ghost predicate ChannelOk(id: nat)
      requires id in channels && id in history
      reads this
    {
      && id < next && (id in subs <==> !channels[id].closed)
      && InOrder(channels[id], history[id]) && forall k :: k in history[id].full ==> k < |history[id].offered|
    }

    ghost predicate Valid()
      reads this
    {
      && history.Keys == channels.Keys && subs <= channels.Keys
      && (forall id :: id in channels ==> ChannelOk(id))
      && (closed ==> subs == {})
    }

    constructor ()
      ensures Valid() && channels == map[] && !closed
    {
      next, subs, channels, closed, history := 0, {}, map[], false, map[];
    }

    /** subscribe: a new id, or nothing from a closed hub. */
    method Subscribe() returns (id: nat, ok: bool)
      requires Valid()
      modifies this
      ensures Valid() && ok == !old(closed) && closed == old(closed)
      ensures !ok ==> unchanged(this)
      ensures ok ==> id !in old(channels) && id >= old(next) && subs == old(subs) + {id}
      ensures ok ==> channels == old(channels)[id := Channel([], false)]
      ensures ok ==> history == old(history)[id := History([], [], [], {})]
    {
      hide InOrder;
      if closed { return 0, false; }
      id := next;
      FreshInOrder();
      assert id in channels ==> ChannelOk(id);
      next := next + 1;
      channels := channels[id := Channel([], false)];
      history := history[id := History([], [], [], {})];
      subs := subs + {id};
      assert forall i :: i in old(channels) ==> old(ChannelOk(i)) && i != id;
      return id, true;
    }

    /** Go's close, which panics on a channel already closed. */
    method CloseChannel(id: nat)
      requires id in channels && !channels[id].closed
      modifies this`channels
      ensures channels == old(channels)[id := old(channels)[id].(closed := true)]
    {
      channels := channels[id := channels[id].(closed := true)];
    }

    /** unsubscribe. */
    method Unsubscribe(id: nat)
      requires Valid()
      modifies this`subs, this`channels
      ensures Valid() && id !in subs && subs == old(subs) - {id}
      ensures forall i :: i in channels <==> i in old(channels)
      ensures forall i :: i in channels && i != id ==> channels[i] == old(channels)[i]
      ensures id in old(subs) ==> channels[id] == old(channels)[id].(closed := true)
    {
      if id in subs {
        assert ChannelOk(id);
        subs := subs - {id};
        CloseChannel(id);
        assert forall i :: i in channels ==> old(ChannelOk(i));
      }
    }

    /** publish: never waits. Every subscriber is offered the event, and misses it only if its buffer is full. */
    method Publish(ev: nat)
      requires Valid()
      modifies this`channels, this`history
      ensures Valid() && channels.Keys == old(channels).Keys
      ensures forall id :: id in subs ==> !channels[id].closed
      ensures forall id :: id in subs ==>
        channels[id].buffer == old(channels)[id].buffer + if |old(channels)[id].buffer| < 16 then [ev] else []
      ensures forall id :: id in subs ==> Offered(old(history)[id], history[id], ev, |old(channels)[id].buffer| < 16)
      ensures forall id :: id in channels && id !in subs ==>
              channels[id] == old(channels)[id] && history[id] == old(history)[id]
    {
      hide ChannelOk, Sent, Recorded;
      var left := subs;
      ghost var was, before := channels, history;
      while left != {}
        invariant left <= subs && Valid() && channels.Keys == was.Keys
        invariant forall id :: id in channels ==>
                  channels[id] == if id in subs - left then Sent(was[id], ev) else was[id]
        invariant forall id :: id in channels ==>
                  history[id] == if id in subs - left then Recorded(was[id], before[id], ev) else before[id]
        decreases |left|
      {
        var id :| id in left;
        assert id in channels && channels[id] == was[id] && history[id] == before[id];
        left := left - {id};
        Send(id, ev);
      }
      forall id | id in subs
        ensures !channels[id].closed && Offered(before[id], history[id], ev, |was[id].buffer| < 16)
        ensures channels[id].buffer == was[id].buffer + if |was[id].buffer| < 16 then [ev] else []
      {
        SentOrNot(was[id], before[id], ev);
        Open(id);
      }
    }

    lemma Open(id: nat)
      requires Valid() && id in subs
      ensures !channels[id].closed
    {
      assert ChannelOk(id);
    }

    /** One send of publish: the channel is open. */
    method Send(id: nat, ev: nat)
      requires Valid() && id in subs
      modifies this`channels, this`history
      ensures Valid() && !old(channels)[id].closed
      ensures channels == old(channels)[id := Sent(old(channels)[id], ev)]
      ensures history == old(history)[id := Recorded(old(channels)[id], old(history)[id], ev)]
    {
      hide InOrder;
      assert ChannelOk(id);
      SentInOrder(channels[id], history[id], ev);
      history := history[id := Recorded(channels[id], history[id], ev)];
      if |channels[id].buffer| < ROOM {
        channels := channels[id := channels[id].(buffer := channels[id].buffer + [ev])];
      }
      assert channels == old(channels)[id := Sent(old(channels)[id], ev)];
      assert forall i :: i in channels ==> old(ChannelOk(i));
    }

    /** close: every subscription ends, and there are no more. */
    method Close()
      requires Valid()
      modifies this
      ensures Valid() && closed && subs == {} && channels.Keys == old(channels).Keys && history == old(history)
      ensures next == old(next)
      ensures forall id :: id in channels ==> channels[id] == old(channels)[id].(closed := true)
    {
      hide InOrder;
      if closed {
        forall id | id in channels ensures channels[id].closed { assert ChannelOk(id); }
        return;
      }
      closed := true;
      var left := subs;
      while left != {}
        invariant left == subs && history == old(history) && next == old(next) && closed
        invariant channels.Keys == old(channels).Keys == history.Keys && subs <= channels.Keys
        invariant forall id :: id in channels ==> ChannelOk(id)
        invariant forall id :: id in channels && id in old(subs) && id !in subs ==>
                  channels[id] == old(channels)[id].(closed := true)
        invariant forall id :: id in channels && (id !in old(subs) || id in subs) ==>
                  channels[id] == old(channels)[id]
        invariant subs <= old(subs)
        decreases |left|
      {
        var id :| id in left;
        assert ChannelOk(id);
        EndOne(id);
        left := left - {id};
      }
      forall id | id in channels ensures channels[id] == old(channels)[id].(closed := true) { assert ChannelOk(id); }
    }

    method EndOne(id: nat)
      requires history.Keys == channels.Keys && id in subs && id in channels
      requires forall i :: i in channels ==> ChannelOk(i)
      modifies this`subs, this`channels
      ensures subs == old(subs) - {id} && channels == old(channels)[id := old(channels)[id].(closed := true)]
      ensures forall i :: i in channels ==> ChannelOk(i)
    {
      assert ChannelOk(id);
      subs := subs - {id};
      CloseChannel(id);
      assert forall i :: i in channels ==> old(ChannelOk(i));
    }

    /** A subscriber receives: the oldest buffered event, or word that the channel is closed; or would wait. */
    method Receive(id: nat) returns (ev: nat, got: bool, over: bool)
      requires Valid() && id in channels
      modifies this`channels, this`history
      ensures Valid() && channels.Keys == old(channels).Keys
      ensures got <==> old(channels)[id].buffer != []
      ensures got ==> ev == old(channels)[id].buffer[0]
      ensures got ==> channels[id] == old(channels)[id].(buffer := old(channels)[id].buffer[1..])
      ensures got ==> history[id] == old(history)[id].(received := old(history)[id].received + [ev])
      ensures !got ==> channels[id] == old(channels)[id] && history[id] == old(history)[id]
      ensures over <==> !got && channels[id].closed
      ensures forall i :: i in channels && i != id ==> channels[i] == old(channels)[i] && history[i] == old(history)[i]
    {
      hide InOrder;
      var c := channels[id];
      assert ChannelOk(id);
      if c.buffer == [] { return 0, false, c.closed; }
      ev := c.buffer[0];
      ReceivedInOrder(c, history[id]);
      channels := channels[id := c.(buffer := c.buffer[1..])];
      history := history[id := history[id].(received := history[id].received + [ev])];
      assert forall i :: i in channels ==> old(ChannelOk(i));
      return ev, true, false;
    }
  }

  lemma ReceivedInOrder(c: Channel, h: History)
    requires InOrder(c, h) && c.buffer != []
    ensures InOrder(c.(buffer := c.buffer[1..]), h.(received := h.received + [c.buffer[0]]))
  {
    assert h.received + c.buffer == (h.received + [c.buffer[0]]) + c.buffer[1..];
  }

  lemma FreshInOrder()
    ensures InOrder(Channel([], false), History([], [], [], {}))
  {}

  /** In any valid hub: a subscriber has received, in order, a selection of what was published while it was
      subscribed, and every event it will not see found its buffer full. */
  lemma NothingElseIsLost(c: Channel, h: History, k: nat)
    requires InOrder(c, h) && k < |h.offered| && k !in h.full
    ensures exists i ::
      0 <= i < |h.received| + |c.buffer| && (h.received + c.buffer)[i] == h.offered[k] && h.kept[i] == k
  {
    var i :| 0 <= i < |h.kept| && h.kept[i] == k;
    assert (h.received + c.buffer)[i] == Chosen(h.offered, h.kept)[i];
  }
}
