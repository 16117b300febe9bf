/** The event broker (internal/hub/hub.go). A channel is a buffer of 32 with Go's rules: sending to or closing a
    closed channel is an error, so both are preconditions here. */
module Hub {
  const CAPACITY := 32

  datatype Event = Event(name: string, data: string)

  /** An event published to a channel, with how many events were outstanding in it at that moment. */
  datatype Sent = Sent(event: Event, outstanding: nat)

  /** The events that found room. */
  ghost function Delivered(sent: seq<Sent>): seq<Event> {
    if sent == [] then []
    else
      var s := sent[|sent| - 1];
      Delivered(sent[..|sent| - 1]) + (if s.outstanding < CAPACITY then [s.event] else [])
  }

  /** The positions, in order, of the delivered events among those published. */
  ghost function Positions(sent: seq<Sent>): (p: seq<nat>)
    ensures |p| == |Delivered(sent)|
    ensures forall i :: 0 <= i < |p| ==> p[i] < |sent| && sent[p[i]].event == Delivered(sent)[i]
    ensures forall i, j :: 0 <= i < j < |p| ==> p[i] < p[j]
    ensures forall k :: 0 <= k < |sent| && k !in p ==> sent[k].outstanding >= CAPACITY
  {
    if sent == [] then []
    else
      var n := |sent| - 1;
      var front := Positions(sent[..n]);
      if sent[n].outstanding < CAPACITY then front + [n] else front
  }

  /** A channel as a value: what it buffers, whether it is closed, everything published to it while subscribed, and
      everything its client took. */
  datatype View = View(buf: seq<Event>, closed: bool, sent: seq<Sent>, received: seq<Event>)

  /** The channel after `ev` was offered to it. */
  function Offered(v: View, ev: Event): View {
    v.(sent := v.sent + [Sent(ev, |v.buf|)], buf := if |v.buf| < CAPACITY then v.buf + [ev] else v.buf)
  }

  /** The event is buffered if there is room for it, is lost if 32 are outstanding, and is on record either way. */
  lemma OfferedIff(v: View, ev: Event)
    ensures var e := Offered(v, ev);
            && e.sent == v.sent + [Sent(ev, |v.buf|)] && e.received == v.received && e.closed == v.closed
            && (|v.buf| < 32 ==> e.buf == v.buf + [ev]) && (|v.buf| >= 32 ==> e.buf == v.buf)
  {
  }

  ghost predicate Sound(v: View) {
    |v.buf| <= CAPACITY && v.received + v.buf == Delivered(v.sent)
  }

  lemma OfferedSound(v: View, ev: Event)
    requires Sound(v)
    ensures Sound(Offered(v, ev))
  {
    var e := Offered(v, ev);
    assert e.sent[..|e.sent| - 1] == v.sent;
    assert v.received + (v.buf + [ev]) == (v.received + v.buf) + [ev];
  }

  class Channel {
    var buf: seq<Event>
    var closed: bool
    /** Everything published while subscribed, and everything the client took. */
    ghost var sent: seq<Sent>
    ghost var received: seq<Event>

    /** Received plus buffered is what was delivered, in the order of publication. */
    ghost predicate Valid()
      reads this
    {
      Sound(Now())
    }

    constructor ()
      ensures Valid() && !closed && buf == [] && sent == [] && received == []
    {
      buf, closed, sent, received := [], false, [], [];
    }

    ghost function Now(): View
      reads this
    {
      View(buf, closed, sent, received)
    }

    /** A send that never blocks. */
    method TrySend(ev: Event)
      requires Valid() && !closed
      modifies this
      ensures Valid() && Now() == Offered(old(Now()), ev)
    {
      OfferedSound(Now(), ev);
      sent := sent + [Sent(ev, |buf|)];
      if |buf| < CAPACITY {
        buf := buf + [ev];
      }
    }

    method CloseChannel()
      requires Valid() && !closed
      modifies this
      ensures Valid() && closed && buf == old(buf) && sent == old(sent) && received == old(received)
    {
      closed := true;
    }

    /** The client takes an event; a closed channel still gives out what is buffered. */
    method Receive() returns (ev: Event)
      requires Valid() && buf != []
      modifies this
      ensures Valid() && closed == old(closed) && sent == old(sent)
      ensures received == old(received) + [ev] && old(buf) == [ev] + buf
    {
      ev := buf[0];
      assert received + buf == (received + [ev]) + buf[1..];
      buf, received := buf[1..], received + [ev];
    }
  }

  /** What a client has or will have is an in-order part of what was published while it was subscribed, and an event
      is missing only if 32 were outstanding when it was published. */
  lemma OnlyOverflowIsLost(ch: Channel)
    requires ch.Valid()
    ensures var p, all := Positions(ch.sent), ch.received + ch.buf;
            && |p| == |all| && (forall i :: 0 <= i < |p| ==> p[i] < |ch.sent| && ch.sent[p[i]].event == all[i])
            && (forall i, j :: 0 <= i < j < |p| ==> p[i] < p[j])
            && (forall k :: 0 <= k < |ch.sent| && k !in p ==> ch.sent[k].outstanding >= 32)
  {
  }

  class Hub {
    var subs: map<Channel, string>
    var closed: bool

    ghost predicate Valid()
      reads this, subs.Keys
    {
      && (closed ==> subs == map[])
      && forall ch :: ch in subs ==> ch.Valid() && !ch.closed
    }

    constructor ()
      ensures Valid() && !closed && subs == map[]
    {
      subs, closed := map[], false;
    }

    /** Sends to every subscriber and waits for none. */
    method Publish(ev: Event)
      requires Valid()
      modifies subs.Keys
      ensures Valid() && subs == old(subs)
      ensures forall ch :: ch in subs ==> ch.Now() == Offered(old(ch.Now()), ev)
    {
      if closed { return; }
      var rest := subs.Keys;
      while rest != {}
        invariant rest <= subs.Keys
        invariant forall ch :: ch in rest ==> ch.Now() == old(ch.Now())
        invariant forall ch :: ch in subs.Keys - rest ==> ch.Now() == Offered(old(ch.Now()), ev)
        decreases rest
      {
        var ch :| ch in rest;
        ch.TrySend(ev);
        rest := rest - {ch};
      }
      forall ch | ch in subs ensures ch.Valid() && !ch.closed {
        assert ch.Now() == Offered(old(ch.Now()), ev);
        OfferedSound(old(ch.Now()), ev);
      }
    }

    /** Registers a new subscriber; on a closed hub it gets a channel that is already closed. */
    method Subscribe(user: string) returns (ch: Channel)
      requires Valid()
      modifies this
      ensures Valid() && fresh(ch) && ch.Valid() && ch.sent == [] && ch.buf == []
      ensures closed == old(closed) && ch.closed == closed
      ensures subs == if closed then old(subs) else old(subs)[ch := user]
    {
      ch := new Channel();
      if closed {
        ch.CloseChannel();
        return;
      }
      subs := subs[ch := user];
    }

    method Unsubscribe(ch: Channel)
      requires Valid()
      modifies this
      ensures Valid() && closed == old(closed) && subs == old(subs) - {ch}
    {
      subs := subs - {ch};
    }

    /** Whether this user has the app open. */
    method UserActive(user: string) returns (active: bool)
      ensures active <==> user != "" && exists ch :: ch in subs && subs[ch] == user
    {
      if user == "" { return false; }
      var rest := subs.Keys;
      while rest != {}
        invariant rest <= subs.Keys
        invariant forall ch :: ch in subs && ch !in rest ==> subs[ch] != user
        decreases rest
      {
        var ch :| ch in rest;
        if subs[ch] == user { return true; }
        rest := rest - {ch};
      }
      active := false;
    }

    /** Closes every subscriber's channel, once, and forgets them; closing again does nothing. */
    method Close()
      requires Valid()
      modifies this, subs.Keys
      ensures Valid() && closed && subs == map[]
      ensures forall ch :: ch in old(subs) ==>
                && ch.Valid() && ch.closed && ch.buf == old(ch.buf)
                && ch.sent == old(ch.sent) && ch.received == old(ch.received)
    {
      if closed { return; }
      var rest := subs.Keys;
      while rest != {}
        invariant subs == old(subs) && !closed && rest <= subs.Keys
        invariant forall ch :: ch in subs ==>
                    ch.Valid() && ch.buf == old(ch.buf) && ch.sent == old(ch.sent) && ch.received == old(ch.received)
        invariant forall ch :: ch in subs ==> (ch.closed <==> ch !in rest)
        decreases rest
      {
        var ch :| ch in rest;
        ch.CloseChannel();
        rest := rest - {ch};
      }
      closed := true;
      subs := map[];
    }
  }
}
