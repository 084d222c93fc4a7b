/**
  The Server-Sent Events hub as a state machine: publishers, the hub goroutine, and for each connection a
  handler goroutine with its own 32-slot channel. Connections are numbered; a number stands for the fresh
  channel its handler makes.
*/
module SSEHub {
  import opened LogEntries
  import opened Sequences

  const CLIENT_BUFFER := 32
  const BROADCAST_BUFFER := 256

  /** A published frame carries its JSON text; `KeepAlive` is the heartbeat comment. */
  datatype Msg = Metrics(json: string) | Log(json: string) | KeepAlive

  datatype Handler = Registering | Streaming | Leaving | Returned

  datatype Conn = Conn(
    buf: seq<Msg>,
    closed: bool,
    handler: Handler,
    written: seq<Msg>,      // taken from the channel and written to the response
    failed: seq<Msg>,       // taken, but the write returned an error
    joined: Option<nat>,    // how many messages had been dispatched at registration
    left: Option<nat>,      // and when the hub dropped the client
    missed: set<nat>)       // indices of dispatched messages that found the channel full

  datatype Hub = Running | Exited

  datatype State = State(
    hub: Hub,
    stopping: bool,         // stopChan is closed
    clients: set<nat>,
    conns: map<nat, Conn>,
    broadcast: seq<Msg>,
    published: seq<Msg>,    // messages that got into the broadcast channel
    dispatched: seq<Msg>,   // messages and heartbeats fanned out by the hub
    panicked: bool)         // a channel was closed twice, or sent to after its close

  const Init := State(Running, false, {}, map[], [], [], [], false)

  datatype Action =
    | Publish(msg: Msg)
    | Connect(c: nat)
    | Register(c: nat)
    | Take(c: nat, ok: bool)
    | SeeClosed(c: nat)
    | Disconnect(c: nat)
    | Unregister(c: nat)
    | Dispatch
    | Heartbeat
    | Close
    | HubStops

  predicate HandlerIs(s: State, c: nat, h: Handler) {
    c in s.conns && s.conns[c].handler == h
  }

  predicate Enabled(s: State, a: Action) {
    match a
    case Publish(m) => !m.KeepAlive?
    case Connect(c) => c !in s.conns
    // register and unregister are unbuffered: the hub must be there to receive
    case Register(c) => s.hub.Running? && HandlerIs(s, c, Registering)
    case Unregister(c) => s.hub.Running? && HandlerIs(s, c, Leaving)
    case Take(c, _) => HandlerIs(s, c, Streaming) && s.conns[c].buf != []
    case SeeClosed(c) => HandlerIs(s, c, Streaming) && s.conns[c].buf == [] && s.conns[c].closed
    case Disconnect(c) => HandlerIs(s, c, Streaming)
    case Dispatch => s.hub.Running? && s.broadcast != []
    case Heartbeat => s.hub.Running?
    case Close => !s.stopping
    case HubStops => s.hub.Running? && s.stopping
  }

  /** A send that does not wait: a full channel misses the message. */
  function Offered(k: Conn, m: Msg, index: nat): Conn {
    if |k.buf| < CLIENT_BUFFER then k.(buf := k.buf + [m]) else k.(missed := k.missed + {index})
  }

  function OfferedTo(conns: map<nat, Conn>, members: set<nat>, m: Msg, index: nat): map<nat, Conn> {
    map c | c in conns :: if c in members then Offered(conns[c], m, index) else conns[c]
  }

  /** The handler takes a message and writes it; a failed write ends its loop. */
  function Taken(k: Conn, ok: bool): Conn
    requires k.buf != []
  {
    var rest := k.(buf := k.buf[1..]);
    if ok then rest.(written := k.written + [k.buf[0]])
    else rest.(failed := k.failed + [k.buf[0]], handler := Leaving)
  }

  function Dropped(k: Conn, now: nat): Conn {
    k.(closed := true, left := Some(now))
  }

  function DroppedAll(conns: map<nat, Conn>, members: set<nat>, now: nat): map<nat, Conn> {
    map c | c in conns :: if c in members then Dropped(conns[c], now) else conns[c]
  }

  predicate AnyClosed(conns: map<nat, Conn>, members: set<nat>) {
    exists c :: c in members && c in conns && conns[c].closed
  }

  function FanOut(s: State, m: Msg): State {
    s.(conns := OfferedTo(s.conns, s.clients, m, |s.dispatched|),
       dispatched := s.dispatched + [m],
       panicked := s.panicked || AnyClosed(s.conns, s.clients))
  }

  function Apply(s: State, a: Action): State
    requires Enabled(s, a)
  {
    match a
    case Publish(m) =>
      if |s.broadcast| < BROADCAST_BUFFER then s.(broadcast := s.broadcast + [m], published := s.published + [m]) else s
    case Connect(c) =>
      s.(conns := s.conns[c := Conn([], false, Registering, [], [], None, None, {})])
    case Register(c) =>
      s.(clients := s.clients + {c},
         conns := s.conns[c := s.conns[c].(handler := Streaming, joined := Some(|s.dispatched|))])
    case Take(c, ok) =>
      s.(conns := s.conns[c := Taken(s.conns[c], ok)])
    case SeeClosed(c) => s.(conns := s.conns[c := s.conns[c].(handler := Leaving)])
    case Disconnect(c) => s.(conns := s.conns[c := s.conns[c].(handler := Leaving)])
    case Unregister(c) =>
      var k := s.conns[c].(handler := Returned);
      if c in s.clients then
        s.(clients := s.clients - {c}, conns := s.conns[c := Dropped(k, |s.dispatched|)], panicked := s.panicked || k.closed)
      else
        s.(conns := s.conns[c := k])
    case Dispatch => FanOut(s.(broadcast := s.broadcast[1..]), s.broadcast[0])
    case Heartbeat => FanOut(s, KeepAlive)
    case Close => s.(stopping := true)
    case HubStops =>
      s.(hub := Exited, clients := {},
         conns := DroppedAll(s.conns, s.clients, |s.dispatched|),
         panicked := s.panicked || AnyClosed(s.conns, s.clients))
  }

  ghost predicate CanRun(s: State, acts: seq<Action>)
    decreases |acts|
  {
    acts == [] || (Enabled(s, acts[0]) && CanRun(Apply(s, acts[0]), acts[1..]))
  }

  ghost function Run(s: State, acts: seq<Action>): State
    requires CanRun(s, acts)
    decreases |acts|
  {
    if acts == [] then s else Run(Apply(s, acts[0]), acts[1..])
  }

  lemma {:induction false} RunSnoc(s: State, acts: seq<Action>, a: Action)
    requires CanRun(s, acts) && Enabled(Run(s, acts), a)
    ensures CanRun(s, acts + [a]) && Run(s, acts + [a]) == Apply(Run(s, acts), a)
    decreases |acts|
  {
    if acts == [] {
      assert ([] + [a])[1..] == [];
    } else {
      RunSnoc(Apply(s, acts[0]), acts[1..], a);
      assert (acts + [a])[1..] == acts[1..] + [a];
    }
  }

  lemma {:induction false} EnabledOnTheWay(s: State, acts: seq<Action>, i: nat)
    requires CanRun(s, acts) && i < |acts|
    ensures CanRun(s, acts[..i]) && Enabled(Run(s, acts[..i]), acts[i])
    decreases |acts|
  {
    if i > 0 {
      EnabledOnTheWay(Apply(s, acts[0]), acts[1..], i - 1);
      assert acts[..i][1..] == acts[1..][..i - 1];
    }
  }

  // ---------------------------------------------------------------- what a client receives

  /** The dispatched messages with index in [from, to) that are not missed, in order. */
  function Pick(d: seq<Msg>, from: nat, to: nat, missed: set<nat>): seq<Msg>
    requires to <= |d|
  {
    if to <= from then [] else
      Pick(d, from, to - 1, missed) + if to - 1 in missed then [] else [d[to - 1]]
  }

  lemma {:induction false} PickExtends(d: seq<Msg>, m: Msg, from: nat, to: nat, missed: set<nat>, more: set<nat>)
    requires to <= |d|
    requires forall i :: i in more ==> to <= i
    ensures Pick(d + [m], from, to, missed + more) == Pick(d, from, to, missed)
  {
    if from < to {
      PickExtends(d, m, from, to - 1, missed, more);
      assert (d + [m])[to - 1] == d[to - 1];
    }
  }

  /** Everything that entered the channel of a connection, in order. */
  function Flow(k: Conn): seq<Msg> { k.written + k.failed + k.buf }

  ghost predicate ConnShape(s: State, c: nat)
    requires c in s.conns
  {
    var k := s.conns[c];
    && |k.buf| <= CLIENT_BUFFER
    && (k.handler.Registering? <==> k.joined.None?)
    && (c in s.clients <==> k.joined.Some? && !k.closed)
    && (k.left.Some? <==> k.closed)
    && (k.failed != [] ==> k.handler.Leaving? || k.handler.Returned?)
    && (k.handler.Returned? ==> k.closed)
    && (k.joined.None? ==> !k.closed)
  }

  function End(s: State, k: Conn): nat { if k.left.Some? then k.left.value else |s.dispatched| }

  ghost predicate ConnFlow(s: State, c: nat)
    requires c in s.conns
  {
    var k := s.conns[c];
    && (k.joined.None? ==> Flow(k) == [] && k.missed == {})
    && (k.joined.Some? ==>
         && k.joined.value <= End(s, k) <= |s.dispatched|
         && (forall i :: i in k.missed ==> k.joined.value <= i < End(s, k))
         && Flow(k) == Pick(s.dispatched, k.joined.value, End(s, k), k.missed))
  }

  ghost predicate ConnInv(s: State, c: nat)
    requires c in s.conns
  {
    ConnShape(s, c) && ConnFlow(s, c)
  }

  function WithoutHeartbeats(d: seq<Msg>): seq<Msg> {
    if d == [] then [] else
      WithoutHeartbeats(d[..|d| - 1]) + if d[|d| - 1].KeepAlive? then [] else [d[|d| - 1]]
  }

  ghost predicate Inv(s: State) {
    && ClientsInv(s)
    && QueueInv(s)
    && (forall c :: c in s.conns ==> ConnInv(s, c))
    && Ordered(s)
  }

  lemma FanOutInv(s: State, m: Msg, c: nat)
    requires c in s.conns && ConnInv(s, c)
    ensures ConnInv(FanOut(s, m), c)
  {
    var k, s' := s.conns[c], FanOut(s, m);
    if k.joined.Some? {
      var n := |s.dispatched|;
      if c in s.clients {
        var more: set<nat> := if |k.buf| < CLIENT_BUFFER then {} else {n};
        PickExtends(s.dispatched, m, k.joined.value, n, k.missed, more);
        assert k.missed + {} == k.missed;
        assert k.written + k.failed + (k.buf + [m]) == Flow(k) + [m];
      } else {
        PickExtends(s.dispatched, m, k.joined.value, k.left.value, k.missed, {});
        assert k.missed + {} == k.missed;
      }
    }
  }

  lemma HeartbeatsAppend(d: seq<Msg>, m: Msg)
    ensures WithoutHeartbeats(d + [m]) == WithoutHeartbeats(d) + if m.KeepAlive? then [] else [m]
  {
    assert (d + [m])[..|d|] == d;
  }

  lemma TakeFlow(k: Conn, ok: bool)
    requires k.buf != [] && k.failed == []
    ensures Flow(Taken(k, ok)) == Flow(k)
  {
    assert k.buf == [k.buf[0]] + k.buf[1..];
    assert (k.written + [k.buf[0]]) + [] + k.buf[1..] == k.written + [] + k.buf;
    assert k.written + [k.buf[0]] + k.buf[1..] == k.written + [] + k.buf;
  }

  lemma ShapeStep(s: State, a: Action, c: nat)
    requires Enabled(s, a) && c in Apply(s, a).conns && s.clients <= s.conns.Keys
    requires c in s.conns ==> ConnShape(s, c)
    ensures ConnShape(Apply(s, a), c)
  {
  }

  /** Apart from the fan-out, no step changes what has entered a channel. */
  lemma FlowKept(s: State, a: Action, c: nat)
    requires Enabled(s, a) && c in s.conns && ConnShape(s, c)
    requires !a.Dispatch? && !a.Heartbeat? && !a.Take?
    ensures c in Apply(s, a).conns
    ensures var k, k' := s.conns[c], Apply(s, a).conns[c];
      && Apply(s, a).dispatched == s.dispatched
      && k'.written == k.written && k'.failed == k.failed && k'.buf == k.buf && k'.missed == k.missed
      && (a == Register(c) ==> k.joined.None? && k'.joined == Some(|s.dispatched|))
      && (a != Register(c) ==> k'.joined == k.joined)
      && End(Apply(s, a), k') == End(s, k)
  {
  }

  lemma FlowStep(s: State, a: Action, c: nat)
    requires Enabled(s, a) && c in Apply(s, a).conns
    requires !a.Dispatch? && !a.Heartbeat?
    requires c in s.conns ==> ConnInv(s, c)
    ensures ConnFlow(Apply(s, a), c)
  {
    if c in s.conns {
      if !a.Take? {
        FlowKept(s, a, c);
      } else if a.c == c {
        TakeFlow(s.conns[c], a.ok);
      }
    }
  }

  /** A step touches only the connection it names, except for the hub's own fan-out and stop. */
  lemma ConnStep(s: State, a: Action, c: nat)
    requires Enabled(s, a) && c in Apply(s, a).conns && s.clients <= s.conns.Keys
    requires c in s.conns ==> ConnInv(s, c)
    ensures ConnInv(Apply(s, a), c)
  {
    match a
    case Dispatch => FanOutInv(s.(broadcast := s.broadcast[1..]), s.broadcast[0], c);
    case Heartbeat => FanOutInv(s, KeepAlive, c);
    case _ =>
      ShapeStep(s, a, c);
      FlowStep(s, a, c);
  }

  ghost predicate Ordered(s: State) { WithoutHeartbeats(s.dispatched) + s.broadcast == s.published }

  lemma FanOutOrdered(s: State, m: Msg, rest: seq<Msg>)
    requires !m.KeepAlive? && WithoutHeartbeats(s.dispatched) + ([m] + rest) == s.published
    ensures Ordered(FanOut(s.(broadcast := rest), m))
  {
    HeartbeatsAppend(s.dispatched, m);
    Associate(WithoutHeartbeats(s.dispatched), [m], rest);
  }

  lemma HeartbeatOrdered(s: State)
    requires Ordered(s)
    ensures Ordered(FanOut(s, KeepAlive))
  {
    HeartbeatsAppend(s.dispatched, KeepAlive);
    assert WithoutHeartbeats(s.dispatched) + [] == WithoutHeartbeats(s.dispatched);
  }

  lemma OrderStep(s: State, a: Action)
    requires Ordered(s) && Enabled(s, a)
    requires forall i :: 0 <= i < |s.broadcast| ==> !s.broadcast[i].KeepAlive?
    ensures Ordered(Apply(s, a))
  {
    match a
    case Publish(m) => Associate(WithoutHeartbeats(s.dispatched), s.broadcast, [m]);
    case Dispatch =>
      assert s.broadcast == [s.broadcast[0]] + s.broadcast[1..];
      FanOutOrdered(s, s.broadcast[0], s.broadcast[1..]);
    case Heartbeat => HeartbeatOrdered(s);
    case _ =>
  }

  lemma ConnsStep(s: State, a: Action)
    requires Enabled(s, a) && s.clients <= s.conns.Keys && forall c :: c in s.conns ==> ConnInv(s, c)
    ensures forall c :: c in Apply(s, a).conns ==> ConnInv(Apply(s, a), c)
  {
    forall c | c in Apply(s, a).conns ensures ConnInv(Apply(s, a), c) {
      ConnStep(s, a, c);
    }
  }

  ghost predicate QueueInv(s: State) {
    |s.broadcast| <= BROADCAST_BUFFER && forall i :: 0 <= i < |s.broadcast| ==> !s.broadcast[i].KeepAlive?
  }

  lemma QueueStep(s: State, a: Action)
    requires QueueInv(s) && Enabled(s, a)
    ensures QueueInv(Apply(s, a))
  {
  }

  ghost predicate ClientsInv(s: State) {
    !s.panicked && s.clients <= s.conns.Keys && (s.hub.Exited? ==> s.clients == {} && s.stopping)
  }

  lemma ClientsStep(s: State, a: Action)
    requires ClientsInv(s) && Enabled(s, a) && !AnyClosed(s.conns, s.clients)
    ensures ClientsInv(Apply(s, a))
  {
  }

  lemma NoneClosed(s: State)
    requires s.clients <= s.conns.Keys && forall c :: c in s.conns ==> ConnInv(s, c)
    ensures !AnyClosed(s.conns, s.clients)
  {
    assert forall c :: c in s.clients ==> ConnInv(s, c);
  }

  lemma InvStep(s: State, a: Action)
    requires Inv(s) && Enabled(s, a)
    ensures Inv(Apply(s, a))
  {
    NoneClosed(s);
    ClientsStep(s, a);
    QueueStep(s, a);
    OrderStep(s, a);
    ConnsStep(s, a);
  }

  lemma {:induction false} InvRun(s: State, acts: seq<Action>)
    requires Inv(s) && CanRun(s, acts)
    ensures Inv(Run(s, acts))
    decreases |acts|
  {
    if acts != [] {
      InvStep(s, acts[0]);
      InvRun(Apply(s, acts[0]), acts[1..]);
    }
  }

  // ---------------------------------------------------------------- results

  /**
    Over every run: no channel is closed twice or sent to after its close, registered clients have open
    channels, and once the hub has stopped no client is left and every channel ever registered is closed.
  */
  lemma ChannelSafety(acts: seq<Action>)
    requires CanRun(Init, acts)
    ensures var s := Run(Init, acts);
      && !s.panicked
      && (forall c :: c in s.clients ==> c in s.conns && !s.conns[c].closed)
      && (s.hub.Exited? ==> s.clients == {} && forall c :: c in s.conns && s.conns[c].joined.Some? ==> s.conns[c].closed)
  {
    InvRun(Init, acts);
    var s := Run(Init, acts);
    assert forall c :: c in s.conns ==> ConnInv(s, c);
  }

  lemma {:induction false} PickAll(d: seq<Msg>, from: nat, to: nat, missed: set<nat>)
    requires from <= to <= |d|
    requires forall i :: i in missed ==> from <= i < to
    ensures |Pick(d, from, to, missed)| == to - from - |missed|
    ensures missed == {} ==> Pick(d, from, to, missed) == d[from..to]
  {
    if from < to {
      var less := missed - {to - 1};
      PickMissing(d, from, to - 1, missed, to - 1);
      PickAll(d, from, to - 1, less);
      if missed == {} {
        assert d[from..to] == d[from..to - 1] + [d[to - 1]];
      }
    } else {
      assert missed == {} by {
        if i :| i in missed {
          assert false;
        }
      }
    }
  }

  lemma {:induction false} PickMissing(d: seq<Msg>, from: nat, to: nat, missed: set<nat>, i: nat)
    requires to <= |d| && to <= i
    ensures Pick(d, from, to, missed - {i}) == Pick(d, from, to, missed)
  {
    if from < to {
      PickMissing(d, from, to - 1, missed, i);
    }
  }

  /**
    What a registered client took or still has waiting is what was dispatched between its registration and
    its removal, less the messages that found its 32 slots full, in order; it has no gap exactly when the
    channel was never full at a dispatch.
  */
  lemma DeliveryIsExact(acts: seq<Action>, c: nat)
    requires CanRun(Init, acts)
    requires var s := Run(Init, acts); c in s.conns && s.conns[c].joined.Some?
    ensures var s := Run(Init, acts);
      var k := s.conns[c];
      var end := End(s, k);
      && k.joined.value <= end <= |s.dispatched|
      && Flow(k) == Pick(s.dispatched, k.joined.value, end, k.missed)
      && (Flow(k) == s.dispatched[k.joined.value..end] <==> k.missed == {})
      && WithoutHeartbeats(s.dispatched) <= s.published
  {
    InvRun(Init, acts);
    var s := Run(Init, acts);
    assert ConnInv(s, c);
    var k := s.conns[c];
    var end := End(s, k);
    PickAll(s.dispatched, k.joined.value, end, k.missed);
  }

  // ---------------------------------------------------------------- when a message is missed

  predicate Dispatches(a: Action) { a.Dispatch? || a.Heartbeat? }

  /** The message that a dispatching step fans out. */
  function Fanned(s: State, a: Action): Msg
    requires Enabled(s, a) && Dispatches(a)
  {
    if a.Dispatch? then s.broadcast[0] else KeepAlive
  }

  /** A send that does not wait, on a channel of 32 slots. */
  predicate SentOrSkipped(before: seq<Msg>, after: seq<Msg>, m: Msg) {
    after == if |before| < 32 then before + [m] else before
  }

  /** A dispatch puts its message into the channel of every registered client that has a free slot, and into no other. */
  lemma DispatchFills(s: State, a: Action, c: nat)
    requires Inv(s) && Enabled(s, a) && Dispatches(a) && c in s.conns
    ensures var s' := Apply(s, a);
      && s'.dispatched == s.dispatched + [Fanned(s, a)] && c in s'.conns
      && (c in s.clients ==> SentOrSkipped(s.conns[c].buf, s'.conns[c].buf, Fanned(s, a)))
      && (c !in s.clients ==> s'.conns[c].buf == s.conns[c].buf)
      && (|s.dispatched| in s'.conns[c].missed <==> c in s.clients && |s.conns[c].buf| == 32)
  {
    assert ConnInv(s, c);
  }

  /** What has been missed or not of the messages dispatched so far stays so. */
  lemma MissedKept(s: State, a: Action, c: nat, n: nat)
    requires Enabled(s, a) && c in s.conns && n < |s.dispatched|
    ensures var s' := Apply(s, a);
      c in s'.conns && n < |s'.dispatched| && (n in s'.conns[c].missed <==> n in s.conns[c].missed)
  {
  }

  lemma {:induction false} MissedForGood(s: State, acts: seq<Action>, c: nat, n: nat)
    requires CanRun(s, acts) && c in s.conns && n < |s.dispatched|
    ensures var s' := Run(s, acts); c in s'.conns && (n in s'.conns[c].missed <==> n in s.conns[c].missed)
    decreases |acts|
  {
    if acts != [] {
      MissedKept(s, acts[0], c, n);
      MissedForGood(Apply(s, acts[0]), acts[1..], c, n);
    }
  }

  lemma {:induction false} RunSplit(s: State, acts: seq<Action>, j: nat)
    requires CanRun(s, acts) && j <= |acts|
    ensures CanRun(s, acts[..j]) && CanRun(Run(s, acts[..j]), acts[j..]) && Run(Run(s, acts[..j]), acts[j..]) == Run(s, acts)
    decreases j
  {
    if j == 0 {
      assert acts[0..] == acts;
    } else {
      RunSplit(Apply(s, acts[0]), acts[1..], j - 1);
      assert acts[..j][1..] == acts[1..][..j - 1] && acts[1..][j - 1..] == acts[j..];
    }
  }

  /**
    Over every run: of the message dispatched by step j, a client registered at that moment misses it if
    and only if its channel held 32 messages then.
  */
  lemma MissedIff(acts: seq<Action>, j: nat, c: nat)
    requires CanRun(Init, acts) && j < |acts| && Dispatches(acts[j])
    ensures CanRun(Init, acts[..j])
    ensures var s, s' := Run(Init, acts[..j]), Run(Init, acts);
      c in s.clients ==> c in s.conns && c in s'.conns && (|s.dispatched| in s'.conns[c].missed <==> |s.conns[c].buf| == 32)
  {
    RunSplit(Init, acts, j);
    var s := Run(Init, acts[..j]);
    InvRun(Init, acts[..j]);
    assert acts[j..][0] == acts[j];
    if c in s.clients {
      DispatchFills(s, acts[j], c);
      MissedForGood(Apply(s, acts[j]), acts[j..][1..], c, |s.dispatched|);
    }
  }

  /** Step j dispatches to client c, and finds its 32 slots taken. */
  ghost predicate FindsFull(acts: seq<Action>, j: nat, c: nat)
    requires j < |acts|
  {
    && Dispatches(acts[j]) && CanRun(Init, acts[..j])
    && var s := Run(Init, acts[..j]);
      c in s.clients && c in s.conns && |s.conns[c].buf| == 32
  }

  ghost predicate NeverFull(acts: seq<Action>, c: nat) {
    forall j :: 0 <= j < |acts| ==> !FindsFull(acts, j, c)
  }

  ghost predicate SomeFull(acts: seq<Action>, c: nat, n: nat) {
    exists j :: 0 <= j < |acts| && FindsFull(acts, j, c) && |Run(Init, acts[..j]).dispatched| == n
  }

  lemma LaterFull(acts: seq<Action>, a: Action, c: nat, n: nat)
    ensures SomeFull(acts, c, n) ==> SomeFull(acts + [a], c, n)
  {
    if j :| 0 <= j < |acts| && FindsFull(acts, j, c) && |Run(Init, acts[..j]).dispatched| == n {
      assert (acts + [a])[..j] == acts[..j];
      assert FindsFull(acts + [a], j, c);
    }
  }

  ghost predicate Missed(s: State, c: nat, n: nat) { c in s.conns && n in s.conns[c].missed }

  /** A message is missed only where a dispatch found the channel full. */
  lemma {:induction false} MissedWasFull(acts: seq<Action>, c: nat, n: nat)
    requires CanRun(Init, acts)
    ensures Missed(Run(Init, acts), c, n) ==> SomeFull(acts, c, n)
    decreases |acts|
  {
    if acts != [] && Missed(Run(Init, acts), c, n) {
      var k := |acts| - 1;
      var front, a := acts[..k], acts[k];
      EnabledOnTheWay(Init, acts, k);
      RunSnoc(Init, front, a);
      assert acts == front + [a];
      InvRun(Init, front);
      NewlyMissed(Run(Init, front), a, c, n);
      MissedWasFull(front, c, n);
      LaterFull(front, a, c, n);
      if !Missed(Run(Init, front), c, n) {
        assert FindsFull(acts, k, c);
      }
    }
  }

  lemma NewlyMissed(s: State, a: Action, c: nat, n: nat)
    requires Inv(s) && Enabled(s, a) && c in Apply(s, a).conns && n in Apply(s, a).conns[c].missed
    ensures (c in s.conns && n in s.conns[c].missed)
      || (Dispatches(a) && c in s.clients && c in s.conns && |s.conns[c].buf| == 32 && n == |s.dispatched|)
  {
    if c in s.conns {
      assert ConnInv(s, c);
    }
  }

  /**
    A client misses nothing if and only if no dispatch ever finds its 32 slots taken; then what entered its
    channel is exactly what was dispatched between its registration and its removal.
  */
  lemma NoGapIff(acts: seq<Action>, c: nat)
    requires CanRun(Init, acts)
    requires var s := Run(Init, acts); c in s.conns && s.conns[c].joined.Some?
    ensures var s := Run(Init, acts);
      var k := s.conns[c];
      && (k.missed == {} <==> NeverFull(acts, c))
      && k.joined.value <= End(s, k) <= |s.dispatched|
      && (k.written + k.failed + k.buf == s.dispatched[k.joined.value..End(s, k)] <==> NeverFull(acts, c))
  {
    DeliveryIsExact(acts, c);
    var k := Run(Init, acts).conns[c];
    if n :| n in k.missed {
      MissedWasFull(acts, c, n);
    }
    if j :| 0 <= j < |acts| && FindsFull(acts, j, c) {
      MissedIff(acts, j, c);
    }
  }

  // ---------------------------------------------------------------- single steps, spelled out

  /** A frame is queued if and only if fewer than 256 wait; otherwise it is dropped. */
  lemma PublishIff(s: State, m: Msg)
    requires !m.KeepAlive?
    ensures Enabled(s, Publish(m)) && Apply(s, Publish(m)).broadcast == if |s.broadcast| < 256 then s.broadcast + [m] else s.broadcast
  {
  }

  /** The handler writes the oldest message; a failed write, and only that, ends its loop. */
  lemma TakeIs(s: State, c: nat, ok: bool)
    requires HandlerIs(s, c, Streaming) && s.conns[c].buf != []
    ensures Enabled(s, Take(c, ok))
    ensures var k, k' := s.conns[c], Apply(s, Take(c, ok)).conns[c];
      && [k.buf[0]] + k'.buf == k.buf
      && k'.written == (if ok then k.written + [k.buf[0]] else k.written)
      && k'.handler == (if ok then Streaming else Leaving)
  {
  }

  lemma RunOne(s: State, a: Action, rest: seq<Action>)
    requires Enabled(s, a) && CanRun(Apply(s, a), rest)
    ensures CanRun(s, [a] + rest) && Run(s, [a] + rest) == Run(Apply(s, a), rest)
  {
    assert ([a] + rest)[1..] == rest;
  }

  /** A streaming client that goes away is dropped: its handler returns, and its channel is closed. */
  lemma DepartureDrops(s: State, c: nat)
    requires Inv(s) && s.hub.Running? && HandlerIs(s, c, Streaming)
    ensures CanRun(s, [Disconnect(c), Unregister(c)])
    ensures var s' := Run(s, [Disconnect(c), Unregister(c)]);
      HandlerIs(s', c, Returned) && c !in s'.clients && s'.conns[c].closed
  {
    assert ConnInv(s, c);
    var s1 := Apply(s, Disconnect(c));
    RunOne(s1, Unregister(c), []);
    RunOne(s, Disconnect(c), [Unregister(c)]);
    assert [Unregister(c)] + [] == [Unregister(c)] && [Disconnect(c)] + [Unregister(c)] == [Disconnect(c), Unregister(c)];
  }

  /** The stop closes every channel at once; a client that has drained its own sees that and leaves its loop. */
  lemma StopCloses(s: State, c: nat)
    requires Inv(s) && s.hub.Running? && !s.stopping && c in s.clients
    ensures CanRun(s, [Close, HubStops])
    ensures var s' := Run(s, [Close, HubStops]);
      && s'.hub.Exited? && s'.clients == {} && c in s'.conns && s'.conns[c].closed && s'.conns[c].buf == s.conns[c].buf
      && (HandlerIs(s, c, Streaming) && s.conns[c].buf == [] ==>
           Enabled(s', SeeClosed(c)) && HandlerIs(Apply(s', SeeClosed(c)), c, Leaving))
  {
    assert ConnInv(s, c);
    var s1 := Apply(s, Close);
    RunOne(s1, HubStops, []);
    RunOne(s, Close, [HubStops]);
    assert [HubStops] + [] == [HubStops] && [Close] + [HubStops] == [Close, HubStops];
  }

  /** Steps of one new client and of one publisher. */
  function Visit(c: nat, m: Msg): seq<Action> {
    [Connect(c), Register(c), Publish(m), Dispatch, Take(c, true)]
  }

  /** From every state with a running hub and nothing queued, a new client can come and get the next message. */
  lemma VisitDelivers(s: State, c: nat, m: Msg)
    requires s.hub.Running? && s.broadcast == [] && c !in s.conns && !m.KeepAlive?
    ensures CanRun(s, Visit(c, m)) && HandlerIs(Run(s, Visit(c, m)), c, Streaming)
    ensures Run(s, Visit(c, m)).conns[c].written == [m]
  {
    var s1 := Apply(s, Connect(c));
    var s2 := Apply(s1, Register(c));
    var s3 := Apply(s2, Publish(m));
    var s4 := Apply(s3, Dispatch);
    assert s4.conns[c].buf == [m];
    RunOne(s4, Take(c, true), []);
    RunOne(s3, Dispatch, [Take(c, true)]);
    RunOne(s2, Publish(m), [Dispatch, Take(c, true)]);
    RunOne(s1, Register(c), [Publish(m), Dispatch, Take(c, true)]);
    RunOne(s, Connect(c), [Register(c), Publish(m), Dispatch, Take(c, true)]);
    assert Visit(c, m) == [Connect(c)] + [Register(c), Publish(m), Dispatch, Take(c, true)];
    assert [Take(c, true)] + [] == [Take(c, true)] && [Dispatch] + [Take(c, true)] == [Dispatch, Take(c, true)];
    assert [Publish(m)] + [Dispatch, Take(c, true)] == [Publish(m), Dispatch, Take(c, true)];
    assert [Register(c)] + [Publish(m), Dispatch, Take(c, true)] == [Register(c), Publish(m), Dispatch, Take(c, true)];
  }

  // ---------------------------------------------------------------- after the stop

  ghost predicate Finished(s: State, c: nat) { HandlerIs(s, c, Returned) }

  /**
    Nobody receives on `register` or `unregister` once the hub has stopped: from then on a handler returns
    in some continuation if and only if it had returned already.
  */
  lemma {:induction false} HandlersAfterStop(s: State, acts: seq<Action>, c: nat)
    requires s.hub.Exited? && CanRun(s, acts)
    ensures Run(s, acts).hub.Exited?
    ensures Finished(Run(s, acts), c) <==> Finished(s, c)
    decreases |acts|
  {
    if acts != [] {
      HandlersAfterStop(Apply(s, acts[0]), acts[1..], c);
    }
  }
}
