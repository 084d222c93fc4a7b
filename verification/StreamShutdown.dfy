/**
  The server together with the SSE hub: a streaming connection is a handler thread, and `Shutdown` closes
  the hub as its first step. Thread p serves connection p.
*/
module StreamShutdown {
  import opened LogEntries
  import P = LogPipeline
  import S = ServerShutdown
  import H = SSEHub

  datatype Node = Node(server: S.Server, hub: H.State)

  datatype Action =
    | Serve(a: S.Action)
    | Stream(b: H.Action)
    | Accept(p: nat)        // a request for the stream comes in
    | BeginShutdown         // the hub's stop channel is closed together with the server's

  predicate Returned(hub: H.State, p: nat) { H.HandlerIs(hub, p, H.Returned) }

  /** A streaming handler neither enqueues nor leaves before its hub handler has returned. */
  ghost predicate ServeAllowed(n: Node, a: S.Action) {
    match a
    case Writer(b) => b.Check? ==> b.producer !in n.hub.conns
    case Spawn(p, _) => p !in n.hub.conns
    case Leave(p) => p in n.hub.conns ==> Returned(n.hub, p)
    case Signal => false
    case _ => true
  }

  ghost predicate Enabled(n: Node, a: Action) {
    match a
    case Serve(b) => S.Enabled(n.server, b) && ServeAllowed(n, b)
    case Stream(b) => H.Enabled(n.hub, b) && !b.Connect? && !b.Close?
    case Accept(p) => S.Enabled(n.server, S.Spawn(p, S.Handler)) && H.Enabled(n.hub, H.Action.Connect(p))
    case BeginShutdown => S.Enabled(n.server, S.Signal) && H.Enabled(n.hub, H.Action.Close)
  }

  ghost function Apply(c: P.Config, n: Node, a: Action): Node
    requires Enabled(n, a)
  {
    match a
    case Serve(b) => n.(server := S.Apply(c, n.server, b))
    case Stream(b) => n.(hub := H.Apply(n.hub, b))
    case Accept(p) => Node(S.Apply(c, n.server, S.Spawn(p, S.Handler)), H.Apply(n.hub, H.Action.Connect(p)))
    case BeginShutdown => Node(S.Apply(c, n.server, S.Signal), H.Apply(n.hub, H.Action.Close))
  }

  ghost predicate CanRun(c: P.Config, n: Node, acts: seq<Action>)
    decreases |acts|
  {
    acts == [] || (Enabled(n, acts[0]) && CanRun(c, Apply(c, n, acts[0]), acts[1..]))
  }

  ghost function Run(c: P.Config, n: Node, acts: seq<Action>): Node
    requires CanRun(c, n, acts)
    decreases |acts|
  {
    if acts == [] then n else Run(c, Apply(c, n, acts[0]), acts[1..])
  }

  /** A connection whose handler has not returned is served by a running HTTP handler. */
  ghost predicate Served(n: Node) {
    forall p :: p in n.hub.conns && !Returned(n.hub, p) ==> p in n.server.threads && n.server.threads[p] == S.Handler
  }

  ghost predicate Inv(c: P.Config, n: Node) { S.Inv(c, n.server) && Served(n) }

  lemma HubKeepsReturned(s: H.State, b: H.Action)
    requires H.Enabled(s, b) && !b.Connect?
    ensures H.Apply(s, b).conns.Keys == s.conns.Keys
    ensures forall p :: Returned(s, p) ==> Returned(H.Apply(s, b), p)
  {
  }

  lemma ServedStep(c: P.Config, n: Node, a: Action)
    requires Served(n) && Enabled(n, a)
    ensures Served(Apply(c, n, a))
  {
    if a.Stream? {
      HubKeepsReturned(n.hub, a.b);
    }
  }

  lemma InvStep(c: P.Config, n: Node, a: Action)
    requires Inv(c, n) && Enabled(n, a)
    ensures Inv(c, Apply(c, n, a))
  {
    ServedStep(c, n, a);
    match a
    case Serve(b) => S.InvStep(c, n.server, b);
    case Accept(p) => S.InvStep(c, n.server, S.Spawn(p, S.Handler));
    case BeginShutdown => S.InvStep(c, n.server, S.Signal);
    case Stream(_) =>
  }

  const Init := Node(S.Init, H.Init)

  lemma {:induction false} InvRun(c: P.Config, n: Node, acts: seq<Action>)
    requires Inv(c, n) && CanRun(c, n, acts)
    ensures Inv(c, Run(c, n, acts))
    decreases |acts|
  {
    if acts != [] {
      InvStep(c, n, acts[0]);
      InvRun(c, Apply(c, n, acts[0]), acts[1..]);
    }
  }

  lemma InitInv(c: P.Config)
    requires c.Valid()
    ensures Inv(c, Init)
  {
    P.InitInv(c);
  }

  // ---------------------------------------------------------------- a stream that never ends

  ghost predicate Stuck(n: Node, p: nat) { n.hub.hub.Exited? && p in n.hub.conns && !Returned(n.hub, p) }

  lemma HubStuck(s: H.State, b: H.Action, p: nat)
    requires s.hub.Exited? && p in s.conns && !Returned(s, p) && H.Enabled(s, b)
    ensures H.Apply(s, b).hub.Exited? && p in H.Apply(s, b).conns && !Returned(H.Apply(s, b), p)
  {
  }

  lemma StuckStep(c: P.Config, n: Node, a: Action, p: nat)
    requires Stuck(n, p) && Served(n) && !n.server.httpNil && Enabled(n, a)
    ensures var n' := Apply(c, n, a); Stuck(n', p) && !n'.server.httpNil
  {
    match a
    case Stream(b) => HubStuck(n.hub, b, p);
    case Accept(q) => HubStuck(n.hub, H.Action.Connect(q), p);
    case BeginShutdown => HubStuck(n.hub, H.Action.Close, p);
    case Serve(b) =>
  }

  lemma {:induction false} StuckForever(c: P.Config, n: Node, acts: seq<Action>, p: nat)
    requires Stuck(n, p) && Inv(c, n) && !n.server.httpNil && CanRun(c, n, acts)
    ensures !Run(c, n, acts).server.httpNil
    decreases |acts|
  {
    if acts != [] {
      StuckStep(c, n, acts[0], p);
      InvStep(c, n, acts[0]);
      StuckForever(c, Apply(c, n, acts[0]), acts[1..], p);
    }
  }

  ghost predicate AllReturned(n: Node) { forall p :: p in n.hub.conns ==> Returned(n.hub, p) }

  /** Steps of the server that no connection stands in the way of once all handlers have returned. */
  predicate Unhindered(a: S.Action) {
    (a.Writer? && !a.a.Check?) || a.Leave? || a.HttpReturns? || a.CloseStorage?
  }

  lemma {:induction false} Lift(c: P.Config, n: Node, sacts: seq<S.Action>) returns (acts: seq<Action>)
    requires S.CanRun(c, n.server, sacts)
    requires forall i :: 0 <= i < |sacts| ==> Unhindered(sacts[i]) && (sacts[i].Leave? ==> AllReturned(n))
    ensures CanRun(c, n, acts) && Run(c, n, acts) == n.(server := S.Run(c, n.server, sacts))
    decreases |sacts|
  {
    acts := [];
    if sacts != [] {
      var n1 := Apply(c, n, Serve(sacts[0]));
      var rest := Lift(c, n1, sacts[1..]);
      acts := [Serve(sacts[0])] + rest;
      assert acts[1..] == rest;
    }
  }

  ghost predicate CanEndInNil(c: P.Config, n: Node) {
    exists acts :: CanRun(c, n, acts) && Run(c, n, acts).server.httpNil
  }

  lemma NilRun(c: P.Config, n: Node)
    requires Inv(c, n) && n.server.phase.HarvesterStopped? && AllReturned(n)
    ensures CanEndInNil(c, n)
  {
    var sacts := S.HandlersLeave(c, n.server);
    var s1 := S.Run(c, n.server, sacts);
    var last := S.RunOne(c, s1, S.HttpReturns(true), []);
    S.RunThen(c, n.server, sacts, last);
    var acts := Lift(c, n, sacts + last);
  }

  /**
    When the hub has stopped before the HTTP shutdown begins, that shutdown can return nil if and only if
    every stream handler had returned by then: the others wait on `unregister` for ever.
  */
  lemma HttpNilIff(c: P.Config, n: Node)
    requires Inv(c, n) && n.server.phase.HarvesterStopped? && n.hub.hub.Exited?
    ensures CanEndInNil(c, n) <==> AllReturned(n)
  {
    if AllReturned(n) {
      NilRun(c, n);
    } else {
      var p :| p in n.hub.conns && !Returned(n.hub, p);
      forall acts | CanRun(c, n, acts) ensures !Run(c, n, acts).server.httpNil {
        StuckForever(c, n, acts, p);
      }
    }
  }

  /**
    With such a handler no continuation is a clean shutdown, and in some of them nothing of what is still
    pending is ever committed: `Close` gets the context that the HTTP shutdown has used up.
  */
  lemma StuckStreamLosesPending(c: P.Config, n: Node, p: nat)
    requires Inv(c, n) && n.server.phase.HarvesterStopped? && Stuck(n, p)
    ensures forall acts :: CanRun(c, n, acts) ==> !S.Cleanly(Run(c, n, acts).server)
    ensures exists acts :: CanRun(c, n, acts) && S.NothingMoreCommitted(c, n.server.w, Run(c, n, acts).server)
  {
    forall acts | CanRun(c, n, acts) ensures !S.Cleanly(Run(c, n, acts).server) {
      StuckForever(c, n, acts, p);
    }
    var sacts := S.TimeoutLosesPending(c, n.server);
    var acts := Lift(c, n, sacts);
  }
}
