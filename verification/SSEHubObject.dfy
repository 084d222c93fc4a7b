/**
  The hub as the program has it: a map of clients that `run` changes one select arm at a time. Fan-out
  and shutdown are loops over that map, in whatever order it yields its keys; each arm is shown to be the
  action of `SSEHub` of the same name, so the order does not matter.
*/
module SSEHubObject {
  import opened LogEntries
  import opened SSEHub
  import opened SSEIndependence

  /** The connections that were registered and have not been dropped since. */
  ghost function Connected(s: State): set<nat> {
    set c | c in s.conns && s.conns[c].joined.Some? && s.conns[c].left.None?
  }

  lemma ClientsAreConnected(s: State)
    requires Inv(s)
    ensures s.clients == Connected(s)
  {
    forall c | c in s.conns ensures c in s.clients <==> c in Connected(s) {
      assert ConnInv(s, c);
    }
  }

  class HubObject {
    var hub: Hub
    var stopping: bool
    var clients: set<nat>
    var conns: map<nat, Conn>
    var broadcast: seq<Msg>
    ghost var published: seq<Msg>
    ghost var dispatched: seq<Msg>
    var panicked: bool
    var count: nat            // messages dispatched so far

    ghost function Model(): State
      reads this
    {
      State(hub, stopping, clients, conns, broadcast, published, dispatched, panicked)
    }

    ghost predicate Valid()
      reads this
    {
      clients <= conns.Keys && count == |dispatched|
    }

    constructor ()
      ensures Valid() && Model() == Init
    {
      hub, stopping, clients, conns, broadcast := Running, false, {}, map[], [];
      published, dispatched, panicked, count := [], [], false, 0;
    }

    // ------------------------------------------------------------ publishers and Close

    /** `BroadcastSnapshot` and `BroadcastLog` after marshalling. */
    method BroadcastMsg(m: Msg) returns (queued: bool)
      requires Valid() && Enabled(Model(), Publish(m))
      modifies this
      ensures Valid() && Model() == Apply(old(Model()), Publish(m))
      ensures queued == (|old(broadcast)| < BROADCAST_BUFFER)
    {
      queued := |broadcast| < BROADCAST_BUFFER;
      if queued {
        broadcast := broadcast + [m];
        published := published + [m];
      }
    }

    /** The size of the map is the number of connections registered and not dropped. */
    method ClientCount() returns (n: nat)
      requires Inv(Model())
      ensures n == |Connected(Model())|
    {
      ClientsAreConnected(Model());
      n := |clients|;
    }

    method CloseStopChan()
      requires Valid() && Enabled(Model(), Close)
      modifies this
      ensures Valid() && Model() == Apply(old(Model()), Close)
    {
      stopping := true;
    }

    // ------------------------------------------------------------ the arms of run

    method OnRegister(c: nat)
      requires Valid() && Enabled(Model(), Register(c))
      modifies this
      ensures Valid() && Model() == Apply(old(Model()), Register(c))
    {
      clients := clients + {c};
      conns := conns[c := conns[c].(handler := Streaming, joined := Some(count))];
    }

    method OnUnregister(c: nat)
      requires Valid() && Enabled(Model(), Unregister(c))
      modifies this
      ensures Valid() && Model() == Apply(old(Model()), Unregister(c))
    {
      conns := conns[c := conns[c].(handler := Returned)];
      if c in clients {
        clients := clients - {c};
        CloseChannel(c);
      }
    }

    /** Go's close: it panics on a channel that is closed already. */
    method CloseChannel(c: nat)
      requires c in conns && count == |dispatched|
      modifies this`conns, this`panicked
      ensures conns == old(conns)[c := Dropped(old(conns)[c], |dispatched|)]
      ensures panicked == (old(panicked) || old(conns)[c].closed)
    {
      panicked := panicked || conns[c].closed;
      conns := conns[c := Dropped(conns[c], count)];
    }

    /** The loop shared by the broadcast and heartbeat arms: one offer to each client, in any order. */
    method OfferToAll(m: Msg)
      requires Valid()
      modifies this`conns, this`panicked
      ensures conns == OfferedTo(old(conns), clients, m, count)
      ensures forall c :: c in clients ==> SentOrSkipped(old(conns)[c].buf, conns[c].buf, m)
      ensures panicked == (old(panicked) || AnyClosed(old(conns), clients))
    {
      EachOffered(conns, clients, m, count);
      OfferEach(m);
    }

    method OfferEach(m: Msg)
      requires Valid()
      modifies this`conns, this`panicked
      ensures conns == OfferedTo(old(conns), clients, m, count)
      ensures panicked == (old(panicked) || AnyClosed(old(conns), clients))
    {
      var todo := clients;
      while todo != {}
        invariant todo <= clients
        invariant conns == OfferedTo(old(conns), clients - todo, m, count)
        invariant panicked == (old(panicked) || AnyClosed(old(conns), clients - todo))
        decreases |todo|
      {
        var c :| c in todo;
        OneMore(old(conns), clients - todo, c, m, count);
        assert clients - (todo - {c}) == (clients - todo) + {c};
        panicked := panicked || conns[c].closed;
        conns := conns[c := Offered(conns[c], m, count)];
        todo := todo - {c};
      }
      assert clients - todo == clients;
    }

    static lemma OneMore(conns: map<nat, Conn>, members: set<nat>, c: nat, m: Msg, index: nat)
      requires c in conns && c !in members
      ensures OfferedTo(conns, members + {c}, m, index) == OfferedTo(conns, members, m, index)[c := Offered(conns[c], m, index)]
      ensures DroppedAll(conns, members + {c}, index) == DroppedAll(conns, members, index)[c := Dropped(conns[c], index)]
      ensures AnyClosed(conns, members + {c}) <==> AnyClosed(conns, members) || conns[c].closed
    {
    }

    static lemma EachOffered(conns: map<nat, Conn>, members: set<nat>, m: Msg, index: nat)
      requires members <= conns.Keys
      ensures forall c :: c in members ==> SentOrSkipped(conns[c].buf, OfferedTo(conns, members, m, index)[c].buf, m)
    {
    }

    method SendToAll(m: Msg)
      requires Valid()
      modifies this
      ensures Valid() && Model() == FanOut(old(Model()), m)
      ensures clients == old(clients) && forall c :: c in clients ==> SentOrSkipped(old(conns)[c].buf, conns[c].buf, m)
    {
      OfferToAll(m);
      dispatched := dispatched + [m];
      count := count + 1;
    }

    method OnBroadcast()
      requires Valid() && Enabled(Model(), Dispatch)
      modifies this
      ensures Valid() && Model() == Apply(old(Model()), Dispatch)
      ensures clients == old(clients) && forall c :: c in clients ==> SentOrSkipped(old(conns)[c].buf, conns[c].buf, old(broadcast)[0])
    {
      var m := broadcast[0];
      broadcast := broadcast[1..];
      SendToAll(m);
    }

    method OnHeartbeat()
      requires Valid() && Enabled(Model(), Heartbeat)
      modifies this
      ensures Valid() && Model() == Apply(old(Model()), Heartbeat)
      ensures clients == old(clients) && forall c :: c in clients ==> SentOrSkipped(old(conns)[c].buf, conns[c].buf, KeepAlive)
    {
      SendToAll(KeepAlive);
    }

    /** The stop arm's loop: each client is deleted and its channel closed. */
    method CloseAll()
      requires Valid()
      modifies this`clients, this`conns, this`panicked
      ensures clients == {}
      ensures conns == DroppedAll(old(conns), old(clients), count)
      ensures panicked == (old(panicked) || AnyClosed(old(conns), old(clients)))
    {
      ghost var all := clients;
      while clients != {}
        invariant clients <= all
        invariant conns == DroppedAll(old(conns), all - clients, count)
        invariant panicked == (old(panicked) || AnyClosed(old(conns), all - clients))
        decreases |clients|
      {
        var c :| c in clients;
        OneMore(old(conns), all - clients, c, KeepAlive, count);
        assert all - (clients - {c}) == (all - clients) + {c};
        clients := clients - {c};
        CloseChannel(c);
      }
      assert all - clients == all;
    }

    method OnStop()
      requires Valid() && Enabled(Model(), HubStops)
      modifies this
      ensures Valid() && Model() == Apply(old(Model()), HubStops)
    {
      CloseAll();
      hub := Exited;
    }

    // ------------------------------------------------------------ the handler of one connection

    method Connect(c: nat)
      requires Valid() && Enabled(Model(), SSEHub.Action.Connect(c))
      modifies this
      ensures Valid() && Model() == Apply(old(Model()), SSEHub.Action.Connect(c))
    {
      conns := conns[c := Conn([], false, Registering, [], [], None, None, {})];
    }

    /** One turn of the handler's loop once a message is there; `ok` is whether the write succeeds. */
    method Receive(c: nat, ok: bool) returns (m: Msg)
      requires Valid() && Enabled(Model(), Take(c, ok))
      modifies this
      ensures Valid() && Model() == Apply(old(Model()), Take(c, ok)) && [m] <= old(conns)[c].buf
    {
      m := conns[c].buf[0];
      conns := conns[c := Taken(conns[c], ok)];
    }

    /** The handler leaves its loop: its request was cancelled, or its channel is closed and drained. */
    method Leave(c: nat)
      requires Valid() && HandlerIs(Model(), c, Streaming)
      modifies this
      ensures Valid() && Model() == Apply(old(Model()), Disconnect(c))
    {
      conns := conns[c := conns[c].(handler := Leaving)];
    }

    // ------------------------------------------------------------ whole runs

    method Perform(a: Action)
      requires Valid() && Enabled(Model(), a)
      modifies this
      ensures Valid() && Model() == Apply(old(Model()), a)
    {
      match a {
        case Publish(m) => var _ := BroadcastMsg(m);
        case Connect(c) => Connect(c);
        case Register(c) => OnRegister(c);
        case Take(c, ok) => var _ := Receive(c, ok);
        case SeeClosed(c) => Leave(c);
        case Disconnect(c) => Leave(c);
        case Unregister(c) => OnUnregister(c);
        case Dispatch => OnBroadcast();
        case Heartbeat => OnHeartbeat();
        case Close => CloseStopChan();
        case HubStops => OnStop();
      }
    }

    method IsEnabled(a: Action) returns (b: bool)
      ensures b == Enabled(Model(), a)
    {
      match a {
        case Publish(m) => b := !m.KeepAlive?;
        case Connect(c) => b := c !in conns;
        case Register(c) => b := hub.Running? && c in conns && conns[c].handler == Registering;
        case Unregister(c) => b := hub.Running? && c in conns && conns[c].handler == Leaving;
        case Take(c, _) => b := c in conns && conns[c].handler == Streaming && conns[c].buf != [];
        case SeeClosed(c) => b := c in conns && conns[c].handler == Streaming && conns[c].buf == [] && conns[c].closed;
        case Disconnect(c) => b := c in conns && conns[c].handler == Streaming;
        case Dispatch => b := hub.Running? && broadcast != [];
        case Heartbeat => b := hub.Running?;
        case Close => b := !stopping;
        case HubStops => b := hub.Running? && stopping;
      }
    }

    /** The hub, its publishers and its handlers in any order; an impossible entry of the schedule is skipped. */
    method Follow(schedule: seq<Action>) returns (taken: seq<Action>)
      requires Valid()
      modifies this
      ensures Valid() && CanRun(old(Model()), taken) && Model() == Run(old(Model()), taken)
      ensures CanRun(old(Model()), schedule) ==> taken == schedule
    {
      taken := [];
      for i := 0 to |schedule|
        invariant Valid() && CanRun(old(Model()), taken) && Model() == Run(old(Model()), taken)
        invariant CanRun(old(Model()), schedule) ==> taken == schedule[..i]
      {
        var able := IsEnabled(schedule[i]);
        if CanRun(old(Model()), schedule) {
          EnabledOnTheWay(old(Model()), schedule, i);
        }
        assert schedule[..i + 1] == schedule[..i] + [schedule[i]];
        if able {
          RunSnoc(old(Model()), taken, schedule[i]);
          Perform(schedule[i]);
          taken := taken + [schedule[i]];
        }
      }
      assert schedule[..|schedule|] == schedule;
    }
  }

  /** What holds of a hub's own fields after any run. */
  ghost predicate Sound(h: HubObject)
    reads h
  {
    && !h.panicked
    && (forall c :: c in h.clients ==> c in h.conns && !h.conns[c].closed)
    && (h.hub.Exited? ==> h.clients == {} && forall c :: c in h.conns && h.conns[c].joined.Some? ==> h.conns[c].closed)
    && forall c :: c in h.conns && h.conns[c].joined.Some? ==> Delivered(h, h.conns[c])
  }

  /** The channel and the response together hold what was dispatched while the client was registered, less what it missed. */
  ghost predicate Delivered(h: HubObject, k: Conn)
    requires k.joined.Some?
    reads h
  {
    var end := if k.left.Some? then k.left.value else |h.dispatched|;
    && k.joined.value <= end <= |h.dispatched|
    && k.written + k.failed + k.buf == Pick(h.dispatched, k.joined.value, end, k.missed)
  }

  /** It is all that was dispatched in that time exactly when no dispatch found the 32 slots taken. */
  ghost predicate GapFreeIff(h: HubObject, k: Conn, neverFull: bool)
    requires k.joined.Some?
    reads h
  {
    var end := if k.left.Some? then k.left.value else |h.dispatched|;
    && k.joined.value <= end <= |h.dispatched|
    && (k.written + k.failed + k.buf == h.dispatched[k.joined.value..end] <==> neverFull)
  }

  /** A new hub under any schedule of publishers, arms and handlers: no panic, nobody left open, delivery exact. */
  method RunHub(schedule: seq<Action>) returns (h: HubObject, taken: seq<Action>)
    ensures fresh(h) && h.Valid() && CanRun(Init, taken) && h.Model() == Run(Init, taken)
    ensures CanRun(Init, schedule) ==> taken == schedule
    ensures Sound(h) && forall c :: c in h.conns && h.conns[c].joined.Some? ==> GapFreeIff(h, h.conns[c], NeverFull(taken, c))
  {
    h := new HubObject();
    taken := h.Follow(schedule);
    ghost var s := Run(Init, taken);
    ChannelSafety(taken);
    forall c | c in s.conns && s.conns[c].joined.Some?
      ensures Delivered(h, h.conns[c]) && GapFreeIff(h, h.conns[c], NeverFull(taken, c))
    {
      DeliveryIsExact(taken, c);
      NoGapIff(taken, c);
    }
  }

  /**
    Two hubs: on the second only what concerns connection c happens, in the same order. Its channel and
    what was written to it come out the same.
  */
  method RunAlone(schedule: seq<Action>, c: nat) returns (all: HubObject, alone: HubObject)
    ensures fresh(all) && fresh(alone) && Sound(all) && Sound(alone)
    ensures c in all.conns ==> c in alone.conns && alone.conns[c] == all.conns[c] && alone.conns.Keys == {c}
  {
    var taken, again;
    all, taken := RunHub(schedule);
    assert Alone(Init, c) == Init;
    InitInv();
    ClientIndependence(Init, taken, c);
    alone, again := RunHub(Erase(taken, c));
    if c in all.conns {
      DeliveredAsIfAlone(taken, c);
    }
  }

  lemma InitInv()
    ensures Inv(Init)
  {
  }
}
