/** The SSE hub: pub/sub over bounded channel buffers. */
module Sse {
  const BUFFER := 8

  type Payload = string

  // What happens to one subscriber's stream: a matching event is published, or
  // the client takes the next pending event.
  datatype Event = Offered(payload: Payload) | Taken

  // A stream after some events: what is pending, and what the client has received.
  datatype Stream = Stream(pending: seq<Payload>, received: seq<Payload>)

  function React(s: Stream, e: Event): Stream {
    match e
    case Offered(payload) => if |s.pending| < BUFFER then s.(pending := s.pending + [payload]) else s
    case Taken => if s.pending == [] then s else Stream(s.pending[1..], s.received + [s.pending[0]])
  }

  function Replay(log: seq<Event>): Stream {
    if log == [] then Stream([], []) else React(Replay(log[..|log| - 1]), log[|log| - 1])
  }

  /** The offers that found fewer than 8 pending, in order. */
  function Accepted(log: seq<Event>): seq<Payload> {
    if log == [] then []
    else
      var before, e := log[..|log| - 1], log[|log| - 1];
      if e.Offered? && |Replay(before).pending| < BUFFER then Accepted(before) + [e.payload] else Accepted(before)
  }

  /** A client receives, in order and once each, exactly the matching events
      that did not find 8 pending; the rest of those wait in its buffer. */
  lemma {:induction false} StreamIsAccepted(log: seq<Event>)
    ensures var s := Replay(log);
            s.received + s.pending == Accepted(log) && |s.pending| <= 8
  {
    if log != [] {
      var before := log[..|log| - 1];
      StreamIsAccepted(before);
      var s := Replay(before);
      if log[|log| - 1].Taken? && s.pending != [] {
        assert s.pending == [s.pending[0]] + s.pending[1..];
      }
    }
  }

  /** A client that keeps up loses nothing. */
  lemma {:induction false} NothingLostUnlessFull(log: seq<Event>)
    requires forall i :: 0 <= i < |log| && log[i].Offered? ==> |Replay(log[..i]).pending| < BUFFER
    ensures Accepted(log) == Offers(log)
  {
    if log != [] {
      var before := log[..|log| - 1];
      forall i | 0 <= i < |before| && before[i].Offered?
        ensures |Replay(before[..i]).pending| < BUFFER
      {
        assert before[..i] == log[..i] && before[i] == log[i];
      }
      NothingLostUnlessFull(before);
    }
  }

  function Offers(log: seq<Event>): seq<Payload> {
    if log == [] then []
    else
      var rest := Offers(log[..|log| - 1]);
      if log[|log| - 1].Offered? then rest + [log[|log| - 1].payload] else rest
  }

  // `at` is the publisher's own step, of no account to the hub.
  datatype Announcement = Announcement(restaurantId: string, payload: Payload, at: nat)

  predicate Concerns(key: string, restaurantId: string) {
    restaurantId == "" || key == "" || key == restaurantId
  }

  /** The payloads of the announcements a key is entitled to, in order. */
  function Entitled(history: seq<Announcement>, key: string): seq<Payload> {
    if history == [] then []
    else
      var rest, a := Entitled(history[..|history| - 1], key), history[|history| - 1];
      if Concerns(key, a.restaurantId) then rest + [a.payload] else rest
  }

  /** A channel with its buffer. The key and the log are what the proof knows about it. */
  class Subscriber {
    ghost const key: string
    ghost const since: nat // how many events had been published before it subscribed
    ghost var log: seq<Event>
    ghost var received: seq<Payload>
    var buf: seq<Payload>
    var open: bool

    ghost predicate Valid() reads this {
      Replay(log) == Stream(buf, received)
    }

    constructor (ghost restaurantId: string, ghost published: nat)
      ensures Valid() && open && key == restaurantId && since == published && log == []
    {
      key, since, log, received, buf, open := restaurantId, published, [], [], [], true;
    }

    /** Non-blocking send. Sending on a closed channel panics, hence the precondition. */
    method TrySend(payload: Payload) returns (sent: bool)
      requires Valid() && open
      modifies this`buf, this`log
      ensures Valid() && log == old(log) + [Offered(payload)]
      ensures sent <==> |old(buf)| < BUFFER
      ensures buf == if sent then old(buf) + [payload] else old(buf)
    {
      sent := |buf| < BUFFER;
      if sent { buf := buf + [payload]; }
      log := log + [Offered(payload)];
      assert log[..|log| - 1] == old(log);
    }

    /** The client side of the channel. */
    method Receive() returns (payload: Payload)
      requires Valid() && buf != []
      modifies this`buf, this`log, this`received
      ensures Valid() && log == old(log) + [Taken]
      ensures received == old(received) + [payload] && old(buf) == [payload] + buf
    {
      payload := buf[0];
      buf, received, log := buf[1..], received + [payload], log + [Taken];
      assert log[..|log| - 1] == old(log);
    }
  }

  class Hub {
    var byRestaurant: map<string, set<Subscriber>>
    var global: set<Subscriber>
    ghost var subscribed: set<Subscriber>
    ghost var history: seq<Announcement>

    /** Every open subscriber is in exactly the one place its key names, no inner
        set is empty, and nothing registered is closed. */
    ghost predicate Registered()
      reads this, subscribed`open
    {
      && (forall s :: s in subscribed ==> s.open)
      && (forall s :: s in global ==> s in subscribed && s.key == "")
      && (forall s :: s in subscribed && s.key == "" ==> s in global)
      && (forall r :: r in byRestaurant ==> r != "" && byRestaurant[r] != {})
      && (forall r, s :: r in byRestaurant && s in byRestaurant[r] ==> s in subscribed && s.key == r)
      && (forall s :: s in subscribed && s.key != "" ==> s.key in byRestaurant && s in byRestaurant[s.key])
    }

    /** A subscriber has been offered exactly the matching events since it subscribed. */
    ghost predicate Served(s: Subscriber)
      reads this, s
    {
      s.Valid() && s.since <= |history| && Offers(s.log) == Entitled(history[s.since..], s.key)
    }

    ghost predicate Valid()
      reads this, subscribed
    {
      Registered() && forall s :: s in subscribed ==> Served(s)
    }

    constructor ()
      ensures Valid() && subscribed == {} && history == []
    {
      byRestaurant, global, subscribed, history := map[], {}, {}, [];
    }

    method Subscribe(restaurantId: string) returns (ch: Subscriber)
      requires Valid()
      modifies this
      ensures Valid() && fresh(ch) && ch.key == restaurantId && ch.since == |history| && history == old(history)
      ensures ch.open && ch.buf == [] && ch.received == []
      ensures subscribed == old(subscribed) + {ch}
    {
      ch := new Subscriber(restaurantId, |history|);
      Register(restaurantId, ch);
      forall s | s in subscribed ensures Served(s) {
        assert s in old(subscribed) ==> old(Served(s));
      }
    }

    method Register(restaurantId: string, ch: Subscriber)
      requires Registered() && ch !in subscribed && ch.open && ch.key == restaurantId
      modifies `byRestaurant, `global, `subscribed
      ensures Registered() && subscribed == old(subscribed) + {ch}
    {
      subscribed := subscribed + {ch};
      if restaurantId == "" {
        global := global + {ch};
      } else {
        if restaurantId !in byRestaurant {
          byRestaurant := byRestaurant[restaurantId := {}];
        }
        byRestaurant := byRestaurant[restaurantId := byRestaurant[restaurantId] + {ch}];
      }
    }

    /** Closing twice panics, and a subscriber left registered would be sent to
        after its close: the caller passes a subscribed channel with its own key. */
    method Unsubscribe(restaurantId: string, ch: Subscriber)
      requires Valid() && ch in subscribed && ch.key == restaurantId
      modifies this, ch`open
      ensures Valid() && subscribed == old(subscribed) - {ch} && history == old(history)
      ensures !ch.open
    {
      Deregister(restaurantId, ch);
      ch.open := false;
    }

    method Deregister(restaurantId: string, ch: Subscriber)
      requires Registered() && ch in subscribed && ch.key == restaurantId
      modifies `byRestaurant, `global, `subscribed
      ensures Registered() && subscribed == old(subscribed) - {ch}
    {
      if restaurantId == "" {
        global := global - {ch};
      } else if restaurantId in byRestaurant {
        byRestaurant := byRestaurant[restaurantId := byRestaurant[restaurantId] - {ch}];
        if byRestaurant[restaurantId] == {} {
          byRestaurant := byRestaurant - {restaurantId};
        }
      }
      subscribed := subscribed - {ch};
    }

    /** One event: the subscribers of everything and of the event's restaurant are
        offered it once, all of them if it names none, and no other is touched. */
    method Publish(restaurantId: string, payload: Payload, ghost at: nat)
      requires Valid()
      modifies subscribed`buf, subscribed`log, `history
      ensures Valid() && history == old(history) + [Announcement(restaurantId, payload, at)]
      ensures forall s :: s in subscribed && (restaurantId == "" || s.key == "" || s.key == restaurantId) ==>
        s.log == old(s.log) + [Offered(payload)] && s.buf == if |old(s.buf)| < 8 then old(s.buf) + [payload] else old(s.buf)
      ensures forall s :: s in subscribed && !(restaurantId == "" || s.key == "" || s.key == restaurantId) ==>
        s.log == old(s.log) && s.buf == old(s.buf)
    {
      Announce(restaurantId, payload, at);
      forall s | s in subscribed
        ensures s.log == old(s.log) ==> s.buf == old(s.buf)
        ensures s.log == old(s.log) + [Offered(payload)] ==> s.buf == if |old(s.buf)| < 8 then old(s.buf) + [payload] else old(s.buf)
      {
        assert old(Served(s)) && Served(s);
        BufferAfter(old(s.log), payload, old(s.buf), s.received, s.buf);
      }
    }

    method Announce(restaurantId: string, payload: Payload, ghost at: nat)
      requires Valid()
      modifies subscribed`buf, subscribed`log, `history
      ensures Valid() && history == old(history) + [Announcement(restaurantId, payload, at)]
      ensures forall s :: s in subscribed ==>
        s.log == if Concerns(s.key, restaurantId) then old(s.log) + [Offered(payload)] else old(s.log)
    {
      ghost var before := history;
      SendToMatching(restaurantId, payload);
      history := history + [Announcement(restaurantId, payload, at)];
      forall s | s in subscribed ensures Served(s) {
        OneMore(before, old(s.log), s.since, Announcement(restaurantId, payload, at), s.key);
      }
    }

    /** The two branches of Publish, under the read lock. */
    method SendToMatching(restaurantId: string, payload: Payload)
      requires Registered() && forall s :: s in subscribed ==> s.Valid()
      modifies subscribed`buf, subscribed`log
      ensures forall s :: s in subscribed ==> s.Valid()
      ensures forall s :: s in subscribed ==>
        s.log == if Concerns(s.key, restaurantId) then old(s.log) + [Offered(payload)] else old(s.log)
    {
      if restaurantId == "" {
        SendAll(global, payload);
        SendToRestaurants(payload);
      } else {
        if restaurantId in byRestaurant {
          SendAll(byRestaurant[restaurantId], payload);
        }
        SendAll(global, payload);
      }
    }

    /** The nested loop over byRestaurant. */
    method SendToRestaurants(payload: Payload)
      requires Registered() && forall s :: s in subscribed ==> s.Valid()
      modifies subscribed`buf, subscribed`log
      ensures forall s :: s in subscribed ==> s.Valid()
      ensures forall s :: s in subscribed ==> s.log == if s.key != "" then old(s.log) + [Offered(payload)] else old(s.log)
    {
      var rest := byRestaurant.Keys;
      while rest != {}
        invariant rest <= byRestaurant.Keys && forall s :: s in subscribed ==> s.Valid()
        invariant forall s :: s in subscribed && (s.key == "" || s.key in rest) ==> s.log == old(s.log)
        invariant forall s :: s in subscribed && s.key != "" && s.key !in rest ==> s.log == old(s.log) + [Offered(payload)]
        decreases rest
      {
        var r :| r in rest;
        SendAll(byRestaurant[r], payload);
        rest := rest - {r};
      }
    }

    /** The stream handler takes the next pending event for its client. */
    method Receive(ch: Subscriber) returns (payload: Payload)
      requires Valid() && ch in subscribed && ch.buf != []
      modifies ch`buf, ch`log, ch`received
      ensures Valid() && ch.log == old(ch.log) + [Taken]
      ensures ch.received == old(ch.received) + [payload] && old(ch.buf) == [payload] + ch.buf
    {
      payload := ch.Receive();
      assert ch.log[..|ch.log| - 1] == old(ch.log);
    }

    /** What a subscribed client has and will get: in order, each matching event
        published since it subscribed, except those that found 8 pending. */
    lemma StreamOfSubscriber(s: Subscriber)
      requires Valid() && s in subscribed
      ensures s.received + s.buf == Accepted(s.log) && |s.buf| <= BUFFER
      ensures Offers(s.log) == Entitled(history[s.since..], s.key)
      ensures (forall i :: 0 <= i < |s.log| && s.log[i].Offered? ==> |Replay(s.log[..i]).pending| < BUFFER)
                ==> s.received + s.buf == Entitled(history[s.since..], s.key)
    {
      assert Served(s);
      StreamIsAccepted(s.log);
      if forall i :: 0 <= i < |s.log| && s.log[i].Offered? ==> |Replay(s.log[..i]).pending| < BUFFER {
        NothingLostUnlessFull(s.log);
      }
    }
  }

  lemma BufferAfter(log: seq<Event>, payload: Payload, buf: seq<Payload>, received: seq<Payload>, buf': seq<Payload>)
    requires Replay(log) == Stream(buf, received)
    ensures Replay(log + [Offered(payload)]) == Stream(buf', received) ==> buf' == if |buf| < 8 then buf + [payload] else buf
  {
    assert (log + [Offered(payload)])[..|log|] == log;
  }

  /** One more announcement adds to a key's due exactly what it adds to its offers. */
  lemma OneMore(history: seq<Announcement>, log: seq<Event>, since: nat, a: Announcement, key: string)
    requires since <= |history| && Offers(log) == Entitled(history[since..], key)
    ensures var log' := if Concerns(key, a.restaurantId) then log + [Offered(a.payload)] else log;
            Offers(log') == Entitled((history + [a])[since..], key)
  {
    var longer := (history + [a])[since..];
    assert longer[..|longer| - 1] == history[since..];
    var log' := log + [Offered(a.payload)];
    assert log'[..|log'| - 1] == log;
  }

  /** The range-and-send loop over one set of channels. */
  method SendAll(targets: set<Subscriber>, payload: Payload)
    requires forall s :: s in targets ==> s.open && s.Valid()
    modifies targets`buf, targets`log
    ensures forall s :: s in targets ==> s.Valid() && s.log == old(s.log) + [Offered(payload)]
  {
    var todo := targets;
    while todo != {}
      invariant todo <= targets
      invariant forall s :: s in targets ==> s.Valid()
      invariant forall s :: s in todo ==> s.log == old(s.log)
      invariant forall s :: s in targets && s !in todo ==> s.log == old(s.log) + [Offered(payload)]
      decreases todo
    {
      var ch :| ch in todo;
      var _ := ch.TrySend(payload);
      todo := todo - {ch};
    }
  }
}
