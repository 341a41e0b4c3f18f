/** The WebSocket fan-out (internal/wshub/hub.go and client.go): one hub goroutine, and a writer per
    client that may take frames from its queue at any moment. A channel is the sequence of frames it
    holds; a writer's moves are a method that takes any number of them, called wherever the hub could
    be overtaken. */
module WsHub {
  import opened Bgp

  const CLIENT_SEND_BUF := 64
  const HUB_BROADCAST_BUF := 256
  const CLIENT_DROP_THRESHOLD := 512

  type Frame = seq<Byte>

  // ---- What a client has of the broadcasts ----

  /** What a client was sent: the frames its writer took and those still queued. `since` is the number
      of broadcasts before it registered, and ids says which broadcast each frame is. */
  datatype Feed = Feed(since: nat, received: seq<Frame>, queue: seq<Frame>, ids: seq<nat>, dropped: nat)

  predicate Increasing(ids: seq<nat>) {
    forall i, j :: 0 <= i < j < |ids| ==> ids[i] < ids[j]
  }

  /** Received and queued frames together are an in-order, duplicate-free subsequence of the broadcasts
      since registration. */
  predicate InOrder(f: Feed, log: seq<Frame>) {
    var frames := f.received + f.queue;
    && |f.queue| <= 64
    && |frames| == |f.ids|
    && Increasing(f.ids)
    && f.since <= |log|
    && forall k :: 0 <= k < |f.ids| ==> f.since <= f.ids[k] < |log| && frames[k] == log[f.ids[k]]
  }

  /** The broadcasts since registration that the client will never see. */
  function Lost(f: Feed, log: seq<Frame>): int {
    |log| - f.since - |f.ids|
  }

  /** The newest broadcast is the last frame queued or received, and no more are lost than counted. */
  predicate UpToDate(f: Feed, log: seq<Frame>) {
    && (|log| > f.since ==> |f.ids| > 0 && Last(f.ids) == |log| - 1)
    && Lost(f, log) <= f.dropped <= 512
  }

  /** The writer takes n frames. */
  function Drained(f: Feed, n: nat): Feed
    requires n <= |f.queue|
  {
    f.(received := f.received + f.queue[..n], queue := f.queue[n..])
  }

  /** The oldest queued frame is thrown away, if there is one. */
  function WithoutOldest(f: Feed): Feed
    requires |f.ids| == |f.received| + |f.queue|
  {
    if |f.queue| == 0 then f
    else f.(queue := f.queue[1..], ids := f.ids[..|f.received|] + f.ids[|f.received| + 1..])
  }

  function Enqueued(f: Feed, id: nat, msg: Frame): Feed {
    f.(queue := f.queue + [msg], ids := f.ids + [id])
  }

  lemma DrainKeepsOrder(f: Feed, log: seq<Frame>, n: nat)
    requires n <= |f.queue| && InOrder(f, log)
    ensures InOrder(Drained(f, n), log)
    ensures UpToDate(Drained(f, n), log) == UpToDate(f, log)
  {
    var g := Drained(f, n);
    assert g.received + g.queue == f.received + f.queue;
  }

  lemma DropKeepsOrder(f: Feed, log: seq<Frame>)
    requires InOrder(f, log)
    ensures InOrder(WithoutOldest(f), log)
    ensures Lost(WithoutOldest(f), log) == Lost(f, log) + if |f.queue| > 0 then 1 else 0
  {
    if |f.queue| > 0 {
      var g, at := WithoutOldest(f), |f.received|;
      assert forall k :: 0 <= k < |g.ids| ==> g.ids[k] == f.ids[if k < at then k else k + 1];
      assert forall k :: 0 <= k < |g.ids| ==>
        (g.received + g.queue)[k] == (f.received + f.queue)[if k < at then k else k + 1];
    }
  }

  lemma EnqueueKeepsOrder(f: Feed, log: seq<Frame>, msg: Frame)
    requires InOrder(f, log) && |f.queue| < CLIENT_SEND_BUF
    ensures var g := Enqueued(f, |log|, msg);
      InOrder(g, log + [msg]) && Last(g.ids) == |log| && Lost(g, log + [msg]) == Lost(f, log)
  {
    var g := Enqueued(f, |log|, msg);
    assert g.received + g.queue == f.received + f.queue + [msg];
  }

  /** A broadcast that found the queue full: the writer takes n1 frames, the oldest goes, the writer
      takes n2 more, and the new one is queued. */
  function Squeezed(f: Feed, n1: nat, n2: nat, id: nat, msg: Frame): Feed
    requires |f.ids| == |f.received| + |f.queue|
    requires n1 <= |f.queue| && n2 <= |WithoutOldest(Drained(f, n1)).queue|
  {
    var g := Enqueued(Drained(WithoutOldest(Drained(f, n1)), n2), id, msg);
    g.(dropped := g.dropped + 1)
  }

  /** Main result on one client: however its writer gets in between, there is room for the new frame,
      the order is kept, the new frame is the last one, and at most one more is lost than before, which
      the count of drops covers. */
  lemma SqueezeKeepsOrder(f: Feed, log: seq<Frame>, n1: nat, n2: nat, msg: Frame)
    requires InOrder(f, log) && |f.queue| == CLIENT_SEND_BUF
    requires n1 <= |f.queue| && n2 <= |WithoutOldest(Drained(f, n1)).queue|
    requires Lost(f, log) <= f.dropped
    ensures |Drained(WithoutOldest(Drained(f, n1)), n2).queue| < CLIENT_SEND_BUF
    ensures var g := Squeezed(f, n1, n2, |log|, msg);
      InOrder(g, log + [msg]) && Last(g.ids) == |log| && Lost(g, log + [msg]) <= g.dropped == f.dropped + 1
  {
    hide InOrder, UpToDate;
    DrainKeepsOrder(f, log, n1);
    var f1 := Drained(f, n1);
    DropKeepsOrder(f1, log);
    var f2 := WithoutOldest(f1);
    DrainKeepsOrder(f2, log, n2);
    EnqueueKeepsOrder(Drained(f2, n2), log, msg);
    CountAside(Enqueued(Drained(f2, n2), |log|, msg), log + [msg]);
  }

  lemma CountAside(f: Feed, log: seq<Frame>)
    ensures InOrder(f.(dropped := f.dropped + 1), log) == InOrder(f, log)
  {
  }

  /** Later broadcasts do not disturb what was sent. */
  lemma OrderLasts(f: Feed, log: seq<Frame>, msg: Frame)
    requires InOrder(f, log)
    ensures InOrder(f, log + [msg])
  {
  }

  /** A client that never overflowed has every broadcast since it registered. */
  lemma NothingDroppedNothingLost(f: Feed, log: seq<Frame>)
    requires InOrder(f, log) && UpToDate(f, log) && f.dropped == 0
    ensures f.received + f.queue == log[f.since..]
  {
    var frames, since := f.received + f.queue, log[f.since..];
    Consecutive(f, log);
    assert |frames| == |since| by {
      assert |f.ids| > 0 ==> f.ids[|f.ids| - 1] == f.since + |f.ids| - 1;
    }
    assert forall k :: 0 <= k < |frames| ==> frames[k] == log[f.ids[k]] == since[k];
  }

  lemma Consecutive(f: Feed, log: seq<Frame>)
    requires InOrder(f, log) && UpToDate(f, log) && f.dropped == 0
    ensures forall k :: 0 <= k < |f.ids| ==> f.ids[k] == f.since + k
  {
    forall k | 0 <= k < |f.ids|
      ensures f.ids[k] == f.since + k
    {
      NoGap(f.ids, f.since, k);
    }
  }

  /** Increasing numbers from `low` on leave no number out if the last is as small as it can be. */
  lemma {:induction false} NoGap(ids: seq<nat>, low: nat, k: nat)
    requires Increasing(ids) && k < |ids| && (forall i :: 0 <= i < |ids| ==> low <= ids[i])
    requires Last(ids) < low + |ids|
    ensures ids[k] == low + k
  {
    AtLeast(ids, low, k);
    AtMost(ids, k);
  }

  lemma {:induction false} AtLeast(ids: seq<nat>, low: nat, k: nat)
    requires Increasing(ids) && k < |ids| && low <= ids[0]
    ensures ids[k] >= low + k
  {
    if k > 0 {
      AtLeast(ids, low, k - 1);
    }
  }

  lemma {:induction false} AtMost(ids: seq<nat>, k: nat)
    requires Increasing(ids) && k < |ids|
    ensures ids[k] + (|ids| - 1 - k) <= Last(ids)
    decreases |ids| - k
  {
    if k + 1 < |ids| {
      AtMost(ids, k + 1);
    }
  }

  // ---- The client ----

  class Client {
    var send: seq<Frame>
    var closed: bool
    var dropped: nat
    var gone: bool
    ghost var since: nat
    ghost var received: seq<Frame>
    ghost var written: seq<Frame>
    ghost var ids: seq<nat>

    constructor ()
      ensures Unused()
    {
      send, closed, dropped, gone := [], false, 0, false;
      since, received, written, ids := 0, [], [], [];
    }

    ghost predicate Unused()
      reads this
    {
      send == [] && !closed && dropped == 0 && !gone && received == [] && written == [] && ids == []
    }

    /** What the writer took went out, all but the frame whose write failed and ended it. */
    ghost predicate Wrote()
      reads this
    {
      if gone then |received| > 0 && written == received[..|received| - 1] else written == received
    }

    /** What was received stays received, counted from the same registration. */
    twostate predicate Continues()
      reads this
    {
      since == old(since) && old(received) <= received && old(written) <= written && old(dropped) <= dropped
    }

    ghost function Value(): Feed
      reads this
    {
      Feed(since, received, send, ids, dropped)
    }

    /** As many rounds of the writer's loop as it gets: it takes frames from the front of the queue, of
        a closed channel too, and writes them out; a write that fails is its last. */
    method WritePump() returns (n: nat)
      modifies this`send, this`received, this`written, this`gone
      ensures n <= |old(send)| && Value() == Drained(old(Value()), n)
      ensures old(Wrote()) ==> Wrote()
      ensures old(gone) ==> n == 0 && gone
      ensures old(written) <= written
    {
      var rounds: nat :| rounds <= |send|;
      n := 0;
      while n < rounds && !gone
        invariant n <= rounds <= |old(send)|
        invariant send == old(send)[n..] && received == old(received) + old(send)[..n]
        invariant old(Wrote()) ==> Wrote()
        invariant old(gone) ==> n == 0 && gone
        invariant old(written) <= written
      {
        var msg := send[0];
        send, received := send[1..], received + [msg];
        var ok := *;
        if ok {
          written := written + [msg];
        } else {
          gone := true;
        }
        n := n + 1;
      }
    }

    /** A send that does not wait. Sending on a closed channel would panic. */
    method TrySend(msg: Frame, ghost id: nat) returns (ok: bool)
      requires !closed
      modifies this`send, this`ids
      ensures ok <==> |old(send)| < CLIENT_SEND_BUF
      ensures Value() == if ok then Enqueued(old(Value()), id, msg) else old(Value())
    {
      ok := |send| < CLIENT_SEND_BUF;
      if ok {
        send, ids := send + [msg], ids + [id];
      }
    }

    /** A receive that does not wait. */
    method TryDrop()
      requires |ids| == |received| + |send|
      modifies this`send, this`ids
      ensures Value() == WithoutOldest(old(Value()))
    {
      if |send| > 0 {
        send, ids := send[1..], ids[..|received|] + ids[|received| + 1..];
      }
    }

    /** Closing a closed channel would panic. */
    method Close()
      requires !closed
      modifies this`closed
      ensures closed
    {
      closed := true;
    }
  }

  /** The client is entitled to what it has: while the hub serves it, it is up to date and its channel
      is open; afterwards the channel is closed, and what it got stays in order. */
  ghost predicate Serves(live: bool, c: Client, log: seq<Frame>)
    reads c
  {
    && InOrder(c.Value(), log)
    && c.Wrote()
    && c.closed == !live
    && (live ==> UpToDate(c.Value(), log))
  }

  /** What a client still to be sent the newest broadcast has to be up to date with. */
  function Known(late: bool, log: seq<Frame>): seq<Frame> {
    if late && |log| > 0 then log[..|log| - 1] else log
  }

  /** All clients there have been are served, those in `todo` up to the last broadcast but one. */
  ghost predicate AllServed(ever: set<Client>, clients: set<Client>, todo: set<Client>, log: seq<Frame>)
    reads ever
  {
    forall c :: c in ever ==> Serves(c in clients, c, Known(c in todo, log))
  }

  /** The writer of one client moves. */
  method WriterMoves(c: Client, ghost live: bool, ghost log: seq<Frame>)
    requires Serves(live, c, log)
    modifies c
    ensures Serves(live, c, log) && c.Continues()
  {
    hide InOrder, UpToDate;
    ghost var before := c.Value();
    var n := c.WritePump();
    DrainKeepsOrder(before, log, n);
  }

  /** The writers of all clients move, each as far as it gets. */
  method WritersMove(ever: set<Client>, ghost clients: set<Client>, ghost todo: set<Client>, ghost log: seq<Frame>)
    requires AllServed(ever, clients, todo, log)
    modifies ever
    ensures AllServed(ever, clients, todo, log)
    ensures forall c :: c in ever ==> c.Continues()
  {
    hide AllServed;
    var rest := ever;
    while rest != {}
      invariant rest <= ever
      invariant AllServed(ever, clients, todo, log)
      invariant forall c :: c in ever ==> c.Continues()
    {
      var c :| c in rest;
      rest := rest - {c};
      OneWriterMoves(ever, clients, todo, log, c);
    }
  }

  method OneWriterMoves(ghost ever: set<Client>, ghost clients: set<Client>, ghost todo: set<Client>, ghost log: seq<Frame>, c: Client)
    requires AllServed(ever, clients, todo, log) && c in ever
    modifies c
    ensures AllServed(ever, clients, todo, log) && c.Continues()
  {
    hide Serves, Known;
    WriterMoves(c, c in clients, Known(c in todo, log));
  }

  method CloseServed(c: Client, ghost log: seq<Frame>)
    requires Serves(true, c, log)
    modifies c`closed
    ensures Serves(false, c, log)
  {
    hide InOrder, UpToDate;
    c.Close();
  }

  /** Closes the channel of a client that is served, which is open. */
  method CloseOne(ghost ever: set<Client>, ghost clients: set<Client>, ghost log: seq<Frame>, c: Client)
    requires AllServed(ever, clients, {}, log) && c in clients && clients <= ever
    modifies c`closed
    ensures AllServed(ever, clients - {c}, {}, log)
  {
    hide Serves, Known;
    NoLongerLate(log);
    CloseServed(c, log);
  }

  /** A full queue loses its oldest frame to the newest one, which is never refused; the writer may
      move between the steps. */
  method SqueezeIn(c: Client, msg: Frame, ghost log: seq<Frame>)
    requires !c.closed && |c.send| == CLIENT_SEND_BUF
    requires InOrder(c.Value(), log) && Lost(c.Value(), log) <= c.dropped && c.Wrote()
    modifies c`send, c`received, c`written, c`gone, c`ids, c`dropped
    ensures c.Wrote()
    ensures c.dropped == old(c.dropped) + 1 && c.Continues()
    ensures InOrder(c.Value(), log + [msg]) && Lost(c.Value(), log + [msg]) <= c.dropped
    ensures |c.ids| > 0 && Last(c.ids) == |log|
  {
    hide InOrder;
    ghost var f := c.Value();
    QueueInBounds(f, log);
    var n1 := c.WritePump();
    c.TryDrop();
    var n2 := c.WritePump();
    SqueezeKeepsOrder(f, log, n1, n2, msg);
    var sent := c.TrySend(msg, |log|);
    assert sent;
    c.dropped := c.dropped + 1;
    assert c.Value() == Squeezed(f, n1, n2, |log|, msg);
  }

  // ---- The hub ----

  datatype HubEvent =
    | Register(client: Client)
    | Unregister(client: Client)
    | Offer(msg: Frame)
    | Deliver
    | Shutdown

  /** The frames broadcast so far and those waiting for their broadcast. */
  datatype Traffic = Traffic(log: seq<Frame>, backlog: seq<Frame>)

  /** What one event makes of the traffic: an offer waits if fewer than 256 do, and a delivery broadcasts
      the frame that has waited longest. */
  function EventTraffic(t: Traffic, e: HubEvent): Traffic {
    match e
    case Offer(msg) => if |t.backlog| < 256 then t.(backlog := t.backlog + [msg]) else t
    case Deliver => if |t.backlog| > 0 then Traffic(t.log + [t.backlog[0]], t.backlog[1..]) else t
    case _ => t
  }

  /** The events up to a shutdown decide the traffic, whatever the writers do. */
  function TrafficAfter(t: Traffic, events: seq<HubEvent>): Traffic
    decreases |events|
  {
    if |events| == 0 || events[0] == Shutdown then t else TrafficAfter(EventTraffic(t, events[0]), events[1..])
  }

  /** The frames offered, in order. */
  function Offered(events: seq<HubEvent>): seq<Frame> {
    if |events| == 0 then []
    else if events[0].Offer? then [events[0].msg] + Offered(events[1..])
    else Offered(events[1..])
  }

  function Deliveries(events: seq<HubEvent>): nat {
    if |events| == 0 then 0 else (if events[0] == Deliver then 1 else 0) + Deliveries(events[1..])
  }

  /** Main result: while the backlog has room for every offer, the broadcasts and the backlog together are
      what there was and the frames offered, in order, and each delivery but those of an empty backlog
      broadcasts one: none is broadcast twice, refused or overtaken. */
  lemma {:induction false} OffersGetThrough(t: Traffic, events: seq<HubEvent>)
    requires Shutdown !in events && |t.backlog| + |Offered(events)| <= 256
    ensures var u := TrafficAfter(t, events);
      && u.log + u.backlog == t.log + t.backlog + Offered(events)
      && |t.log| <= |u.log| <= |t.log| + Deliveries(events)
      && (|u.backlog| > |Offered(events)| ==> |u.log| == |t.log| + Deliveries(events))
    decreases |events|
  {
    if |events| > 0 {
      var u := EventTraffic(t, events[0]);
      var here := if events[0].Offer? then [events[0].msg] else [];
      assert u.log + u.backlog == t.log + t.backlog + here;
      OffersGetThrough(u, events[1..]);
    }
  }

  /** As many deliveries in a row as frames wait leave none waiting, and all of them broadcast in order. */
  lemma {:induction false} DeliveriesEmptyBacklog(t: Traffic, events: seq<HubEvent>)
    requires |t.backlog| <= |events| && forall i :: 0 <= i < |events| ==> events[i] == Deliver
    ensures TrafficAfter(t, events) == Traffic(t.log + t.backlog, [])
    decreases |events|
  {
    if |events| == 0 {
      assert t.backlog == [];
    } else {
      assert events[0] == Deliver;
      var u := EventTraffic(t, events[0]);
      assert u.log + u.backlog == t.log + t.backlog;
      DeliveriesEmptyBacklog(u, events[1..]);
    }
  }

  /** After these events the clients are those there were and those that registered, but for the ones that
      unregistered, overflowed more than 512 times or saw the shutdown. Clients known before that
      unregister are gone. */
  ghost predicate Accounted(was: set<Client>, known: set<Client>, clients: set<Client>, events: seq<HubEvent>)
    reads was + Arrivals(events)
  {
    && clients <= was + Arrivals(events)
    && (forall c :: c in was + Arrivals(events) && c !in clients ==> c.dropped > 512 || Unregister(c) in events || Shutdown in events)
    && (forall c :: c in known && Unregister(c) in events ==> c !in clients)
  }

  class Hub {
    var clients: set<Client>
    var backlog: seq<Frame>
    var count: int
    var stopped: bool
    var ever: set<Client>
    ghost var accepted: seq<Frame>
    ghost var log: seq<Frame>

    ghost function Load(): Traffic
      reads this
    {
      Traffic(log, backlog)
    }

    ghost predicate Valid()
      reads this, ever
    {
      && clients <= ever
      && accepted == log + backlog && |backlog| <= 256
      && (if stopped then clients == {} else count == |clients|)
      && AllServed(ever, clients, {}, log)
    }

    constructor ()
      ensures Valid() && !stopped && ever == {} && accepted == []
    {
      clients, backlog, count, stopped, ever, accepted, log := {}, [], 0, false, {}, [], [];
    }

    /** Offers a frame for broadcast without ever waiting: a full backlog drops it. */
    method Broadcast(msg: Frame)
      requires Valid()
      modifies this`backlog, this`accepted
      ensures Valid()
      ensures accepted == if |old(backlog)| < 256 then old(accepted) + [msg] else old(accepted)
      ensures Load() == EventTraffic(old(Load()), Offer(msg))
    {
      if |backlog| < HUB_BROADCAST_BUF {
        backlog, accepted := backlog + [msg], accepted + [msg];
      }
    }

    method Admit(c: Client)
      requires Valid() && !stopped && c !in ever && c.Unused()
      modifies this`clients, this`count, this`ever, c`since
      ensures Valid() && clients == old(clients) + {c} && ever == old(ever) + {c}
      ensures c.Value() == Feed(|log|, [], [], [], 0)
    {
      hide AllServed, Serves;
      c.since := |log|;
      NewcomerServed(c, log);
      NewcomerJoins(ever, clients, log, c);
      clients, ever := clients + {c}, ever + {c};
      count := count + 1;
    }

    method Dismiss(c: Client)
      requires Valid() && !stopped
      modifies this`clients, this`count, (if c in clients then {c} else {})`closed
      ensures Valid() && clients == old(clients) - {c}
    {
      hide AllServed, Serves;
      if c in clients {
        CloseOne(ever, clients, log, c);
        clients := clients - {c};
        count := count - 1;
      }
    }

    /** One client gets the newest broadcast. A full queue loses its oldest frame, and a client that
        has overflowed too often is disconnected. Its writer may move between any two steps. */
    method SendToClient(c: Client, msg: Frame)
      requires c in clients && |log| > 0 && msg == Last(log)
      requires Serves(true, c, log[..|log| - 1])
      modifies this`clients, this`count, c
      ensures Serves(c in clients, c, log) && c.Continues()
      ensures |old(c.send)| < 64 ==> c.Value() == Enqueued(old(c.Value()), |log| - 1, msg)
      ensures |old(c.send)| == 64 ==> c.dropped == old(c.dropped) + 1
      ensures c !in clients ==> c.dropped > 512
      ensures c in clients <==> |old(c.send)| < 64 || old(c.dropped) < 512
      ensures clients == if c in clients then old(clients) else old(clients) - {c}
      ensures count - |clients| == old(count) - |old(clients)|
    {
      hide InOrder;
      ghost var before := log[..|log| - 1];
      ghost var f := c.Value();
      assert before + [msg] == log;
      QueueInBounds(f, before);
      var sent := c.TrySend(msg, |before|);
      if sent {
        EnqueueKeepsOrder(f, before, msg);
        return;
      }
      SqueezeIn(c, msg, before);
      if c.dropped > CLIENT_DROP_THRESHOLD {
        clients := clients - {c};
        c.Close();
        count := count - 1;
      }
    }

    /** The next broadcast goes to every client, in no particular order, while all writers move. */
    method FanOut()
      requires Valid() && !stopped && |backlog| > 0
      modifies this`clients, this`backlog, this`count, this`log, ever
      ensures Valid() && log == old(log) + [old(backlog)[0]] && backlog == old(backlog)[1..]
      ensures clients <= old(clients)
      ensures forall c :: c in old(clients) - clients ==> c.dropped > 512
      ensures forall c :: c in ever ==> c.Continues()
    {
      hide AllServed, Known, Serves;
      var msg := backlog[0];
      NoneServedYet(ever, clients, log, msg);
      backlog, log := backlog[1..], log + [msg];
      ServeAll(msg);
    }

    method ServeAll(msg: Frame)
      requires clients <= ever && |log| > 0 && msg == Last(log)
      requires AllServed(ever, clients, clients, log)
      modifies this`clients, this`count, ever
      ensures clients <= old(clients) && AllServed(ever, clients, {}, log)
      ensures count - |clients| == old(count) - |old(clients)|
      ensures forall c :: c in old(clients) - clients ==> c.dropped > 512
      ensures forall c :: c in ever ==> c.Continues()
    {
      hide AllServed;
      var todo := clients;
      while todo != {}
        invariant todo <= clients <= old(clients)
        invariant count - |clients| == old(count) - |old(clients)|
        invariant AllServed(ever, clients, todo, log)
        invariant forall c :: c in old(clients) - clients ==> c.dropped > 512
        invariant forall c :: c in ever ==> c.Continues()
      {
        WritersMove(ever, clients, todo, log);
        var c :| c in todo;
        ServeNext(c, todo, msg);
        todo := todo - {c};
      }
    }

    method ServeNext(c: Client, ghost todo: set<Client>, msg: Frame)
      requires c in todo && todo <= clients <= ever && |log| > 0 && msg == Last(log)
      requires AllServed(ever, clients, todo, log)
      modifies this`clients, this`count, c
      ensures AllServed(ever, clients, todo - {c}, log) && c.Continues()
      ensures clients == old(clients) || (clients == old(clients) - {c} && c.dropped > 512)
      ensures count - |clients| == old(count) - |old(clients)|
    {
      hide Serves, Known;
      NextToServe(ever, clients, todo, log, c);
      SendToClient(c, msg);
      NoLongerLate(log);
    }

    /** Cancellation: every channel is closed and every client forgotten. */
    method Stop()
      requires Valid() && !stopped
      modifies this`clients, this`stopped, clients`closed
      ensures Valid() && stopped && clients == {}
    {
      hide AllServed, Serves;
      while clients != {}
        invariant clients <= old(clients) && clients <= ever
        invariant AllServed(ever, clients, {}, log)
      {
        var c :| c in clients;
        CloseOne(ever, clients, log, c);
        clients := clients - {c};
      }
      stopped := true;
    }

    /** One event that reaches the hub, after the writers have moved. */
    method Turn(e: HubEvent)
      requires Valid() && !stopped
      requires e.Register? ==> e.client !in ever && e.client.Unused()
      modifies this, ever, if e.Register? then {e.client} else {}
      ensures Valid() && old(accepted) <= accepted && Load() == EventTraffic(old(Load()), e)
      ensures ever == old(ever) + if e.Register? then {e.client} else {}
      ensures forall c :: c in old(ever) ==> c.Continues()
      ensures stopped <==> e == Shutdown
      ensures e.Register? ==> clients == old(clients) + {e.client} && e.client.Value() == Feed(|log|, [], [], [], 0)
      ensures e.Unregister? ==> clients == old(clients) - {e.client}
      ensures e.Offer? ==> clients == old(clients)
      ensures e.Deliver? ==> clients <= old(clients) && forall c :: c in old(clients) - clients ==> c.dropped > 512
      ensures e.Shutdown? ==> clients == {}
    {
      hide Serves, Client.Unused;
      WritersMove(ever, clients, {}, log);
      Step(e);
    }

    lemma ClientsAreKnown()
      requires Valid()
      ensures clients <= ever
    {
      hide AllServed;
    }

    method Step(e: HubEvent)
      requires Valid() && !stopped
      requires e.Register? ==> e.client !in ever && e.client.Unused()
      modifies this, ever, if e.Register? then {e.client} else {}
      ensures Valid() && old(accepted) <= accepted && Load() == EventTraffic(old(Load()), e)
      ensures ever == old(ever) + if e.Register? then {e.client} else {}
      ensures forall c :: c in old(ever) ==> c.Continues()
      ensures stopped <==> e == Shutdown
      ensures e.Register? ==> clients == old(clients) + {e.client} && e.client.Value() == Feed(|log|, [], [], [], 0)
      ensures e.Unregister? ==> clients == old(clients) - {e.client}
      ensures e.Offer? ==> clients == old(clients)
      ensures e.Deliver? ==> clients <= old(clients) && forall c :: c in old(clients) - clients ==> c.dropped > 512
      ensures e.Shutdown? ==> clients == {}
    {
      hide Valid, Client.Unused;
      ClientsAreKnown();
      match e {
        case Register(c) =>
          Admit(c);
        case Unregister(c) =>
          Dismiss(c);
        case Offer(msg) =>
          Broadcast(msg);
        case Deliver =>
          if |backlog| > 0 {
            FanOut();
          }
        case Shutdown =>
          Stop();
      }
    }

    /** One event more of a run: the accounts of the clients stay right. */
    method Next(e: HubEvent, ghost was: set<Client>, ghost known: set<Client>, ghost past: seq<HubEvent>)
      requires Valid() && !stopped
      requires e.Register? ==> e.client !in ever && e.client.Unused()
      requires was <= known <= ever && was + Arrivals(past) <= ever && Accounted(was, known, clients, past)
      modifies this, ever, if e.Register? then {e.client} else {}
      ensures Valid() && old(accepted) <= accepted && Load() == EventTraffic(old(Load()), e)
      ensures ever == old(ever) + if e.Register? then {e.client} else {}
      ensures forall c :: c in old(ever) ==> c.Continues()
      ensures stopped <==> e == Shutdown
      ensures stopped ==> clients == {}
      ensures Accounted(was, known, clients, past + [e]) && Arrivals(past + [e]) <= ever
    {
      hide Valid, Client.Unused, EventTraffic;
      Turn(e);
      OneArrivalMore(past, e);
    }

    /** The hub's loop over whatever reaches it, up to its shutdown, while all writers move. */
    method Run(events: seq<HubEvent>)
      requires Valid() && !stopped
      requires NewcomersOnly(events, ever)
      modifies this, ever, Arrivals(events)
      ensures Valid() && old(accepted) <= accepted
      ensures Load() == TrafficAfter(old(Load()), events)
      ensures old(ever) <= ever <= old(ever) + Arrivals(events)
      ensures forall c :: c in old(ever) ==> c.Continues()
      ensures Accounted(old(clients), old(ever), clients, events)
      ensures stopped <==> Shutdown in events
    {
      hide Valid, Client.Unused, EventTraffic, TrafficAfter, Accounted;
      ClientsAreKnown();
      NothingYet(clients, ever);
      for i := 0 to |events|
        invariant Valid() && !stopped && old(accepted) <= accepted
        invariant NewcomersOnly(events[i..], ever)
        invariant TrafficAfter(old(Load()), events) == TrafficAfter(Load(), events[i..])
        invariant old(ever) <= ever <= old(ever) + Arrivals(events)
        invariant Arrivals(events[..i]) <= ever
        invariant forall c :: c in old(ever) ==> c.Continues()
        invariant Accounted(old(clients), old(ever), clients, events[..i])
        invariant Shutdown !in events[..i]
      {
        assert events[..i] + [events[i]] == events[..i + 1];
        NextEvent(Load(), events, i);
        Next(events[i], old(clients), old(ever), events[..i]);
        if stopped {
          NoneLeft(old(clients), old(ever), events);
          return;
        }
      }
      assert events[..|events|] == events;
      NoMoreTraffic(Load());
    }
  }

  lemma NothingYet(clients: set<Client>, known: set<Client>)
    ensures Accounted(clients, known, clients, [])
  {
  }

  lemma NoneLeft(was: set<Client>, known: set<Client>, events: seq<HubEvent>)
    requires Shutdown in events
    ensures Accounted(was, known, {}, events)
  {
  }

  lemma NextEvent(t: Traffic, events: seq<HubEvent>, i: nat)
    requires i < |events|
    ensures TrafficAfter(t, events[i..]) ==
      if events[i] == Shutdown then EventTraffic(t, Shutdown) else TrafficAfter(EventTraffic(t, events[i]), events[i + 1..])
  {
    assert events[i..][0] == events[i] && events[i..][1..] == events[i + 1..];
  }

  lemma NoMoreTraffic(t: Traffic)
    ensures TrafficAfter(t, []) == t
  {
  }

  lemma OneArrivalMore(events: seq<HubEvent>, e: HubEvent)
    ensures Arrivals(events + [e]) == Arrivals(events) + if e.Register? then {e.client} else {}
  {
  }

  /** The clients that register. */
  ghost function Arrivals(events: seq<HubEvent>): set<Client> {
    set e | e in events && e.Register? :: e.client
  }

  /** Every connection makes a client of its own and registers it once. */
  ghost predicate NewcomersOnly(events: seq<HubEvent>, ever: set<Client>)
    reads Arrivals(events)
  {
    && (forall i :: 0 <= i < |events| && events[i].Register? ==> events[i].client !in ever && events[i].client.Unused())
    && forall i, j :: 0 <= i < j < |events| && events[i].Register? && events[j].Register? ==> events[i].client != events[j].client
  }

  /** Main result on the hub: when no frame waits, a client still served that never overflowed has got every
      frame accepted since it registered, in order, its queue included. */
  lemma DeliveredInFull(h: Hub, c: Client)
    requires h.Valid() && h.backlog == [] && c in h.clients && c.dropped == 0
    ensures c.since <= |h.accepted| && c.received + c.send == h.accepted[c.since..]
  {
    hide InOrder, UpToDate;
    assert Serves(c in h.clients, c, Known(false, h.log));
    QueueInBounds(c.Value(), h.log);
    NothingDroppedNothingLost(c.Value(), h.log);
  }

  lemma NextToServe(ever: set<Client>, clients: set<Client>, todo: set<Client>, log: seq<Frame>, c: Client)
    requires AllServed(ever, clients, todo, log) && c in todo && todo <= clients <= ever && |log| > 0
    ensures Serves(true, c, log[..|log| - 1])
  {
    hide Serves;
  }

  lemma NoLongerLate(log: seq<Frame>)
    ensures Known(false, log) == log
  {
  }

  lemma NewcomerServed(c: Client, log: seq<Frame>)
    requires c.Unused() && c.since == |log|
    ensures Serves(true, c, log)
  {
  }

  lemma QueueInBounds(f: Feed, log: seq<Frame>)
    requires InOrder(f, log)
    ensures |f.queue| <= CLIENT_SEND_BUF && |f.ids| == |f.received| + |f.queue| && f.since <= |log|
  {
  }

  lemma NoneServedYet(ever: set<Client>, clients: set<Client>, log: seq<Frame>, msg: Frame)
    requires AllServed(ever, clients, {}, log)
    ensures AllServed(ever, clients, clients, log + [msg])
  {
    hide InOrder, UpToDate;
    assert (log + [msg])[..|log|] == log;
    forall c | c in ever
      ensures Serves(c in clients, c, Known(c in clients, log + [msg]))
    {
      assert Serves(c in clients, c, Known(false, log));
      OrderLasts(c.Value(), log, msg);
    }
  }

  lemma NewcomerJoins(ever: set<Client>, clients: set<Client>, log: seq<Frame>, c: Client)
    requires AllServed(ever, clients, {}, log) && c !in ever && Serves(true, c, log)
    ensures AllServed(ever + {c}, clients + {c}, {}, log)
  {
    hide Serves;
  }
}
