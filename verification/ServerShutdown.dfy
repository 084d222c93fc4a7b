/**
  The server around the log pipeline: who may call `Enqueue` (the startup loop, the harvester's tailers,
  the HTTP handlers) and the order of the steps in `Shutdown`. `Shutdown` may begin at any moment, in
  particular while `harvester.Start`, which runs in its own goroutine, is still starting tailers.
*/
module ServerShutdown {
  import opened LogEntries
  import P = LogPipeline
  import R = LogPipelineResults

  datatype Kind = StartupLoop | Tailer | Handler

  /** The steps of `Shutdown` that have returned. */
  datatype Phase = Serving | Signalled | HarvesterStopped | HttpDone | WriterClosing | WriterDone | StorageClosed

  datatype Server = Server(
    w: P.State,
    threads: map<nat, Kind>,
    startReturned: bool,       // harvester.Start has returned: no tailer is started any more
    phase: Phase,
    harvestOver: bool,         // harvester.Start had returned and no tailer ran when Close set its flag
    httpNil: bool,             // httpServer.Shutdown returned nil: no handler runs or starts
    opsAtClose: Option<nat>)   // how many storage calls there had been when the storage was closed

  const Init := Server(P.Init, map[0 := StartupLoop], false, Serving, false, false, None)

  datatype Action =
    | Writer(a: P.Action)
    | Spawn(p: nat, kind: Kind)
    | Leave(p: nat)
    | StartReturns
    | Signal
    | StopReturns
    | HttpReturns(ok: bool)
    | CloseStorage

  ghost predicate Nobody(threads: map<nat, Kind>, k: Kind) {
    forall p :: p in threads ==> threads[p] != k
  }

  /** No tailer runs, and none will be started. */
  ghost predicate HarvestOver(s: Server) { s.startReturned && Nobody(s.threads, Tailer) }

  /** Which writer steps the server performs: only `Shutdown` calls `Close`, and only once. */
  ghost predicate WriterStepAllowed(s: Server, a: P.Action) {
    match a
    case Check(p, _) => p in s.threads
    case SetClosed => s.phase.HttpDone?
    case CloseDone => s.phase.WriterClosing?
    case CloseReturnsNil => s.phase.WriterClosing?
    case CloseTimesOut => s.phase.WriterClosing?
    case CloseAgain => false
    // the closed storage refuses every call
    case WriteReturns(ok) => s.phase.StorageClosed? ==> !ok
    case PruneReturns(_, ok) => s.phase.StorageClosed? ==> !ok
    case _ => true
  }

  ghost predicate Enabled(s: Server, a: Action) {
    match a
    case Writer(b) => P.Enabled(s.w, b) && WriterStepAllowed(s, b)
    case Spawn(p, k) =>
      // the harvester and the listener are started after the startup loop
      && p !in s.threads && !k.StartupLoop? && Nobody(s.threads, StartupLoop)
      && (k.Tailer? ==> !s.startReturned) && (k.Handler? ==> !s.httpNil)
    case Leave(p) => p in s.threads && p !in s.w.inflight
    case StartReturns => Nobody(s.threads, StartupLoop)
    case Signal => s.phase.Serving?
    case StopReturns => s.phase.Signalled? && Nobody(s.threads, Tailer)
    case HttpReturns(ok) => s.phase.HarvesterStopped? && (ok ==> Nobody(s.threads, Handler))
    case CloseStorage => s.phase.WriterDone?
  }

  ghost function Apply(c: P.Config, s: Server, a: Action): Server
    requires Enabled(s, a)
  {
    match a
    case Writer(b) =>
      var s' := s.(w := P.Apply(c, s.w, b));
      if b.SetClosed? then s'.(phase := WriterClosing, harvestOver := HarvestOver(s))
      else if b.CloseReturnsNil? || b.CloseTimesOut? then s'.(phase := WriterDone)
      else s'
    case Spawn(p, k) => s.(threads := s.threads[p := k])
    case Leave(p) => s.(threads := s.threads - {p})
    case StartReturns => s.(startReturned := true)
    case Signal => s.(phase := Signalled)
    case StopReturns => s.(phase := HarvesterStopped)
    case HttpReturns(ok) => s.(phase := HttpDone, httpNil := ok)
    case CloseStorage => s.(phase := StorageClosed, opsAtClose := Some(|s.w.ops|))
  }

  ghost predicate CanRun(c: P.Config, s: Server, acts: seq<Action>)
    decreases |acts|
  {
    acts == [] || (Enabled(s, acts[0]) && CanRun(c, Apply(c, s, acts[0]), acts[1..]))
  }

  ghost function Run(c: P.Config, s: Server, acts: seq<Action>): Server
    requires CanRun(c, s, acts)
    decreases |acts|
  {
    if acts == [] then s else Run(c, Apply(c, s, acts[0]), acts[1..])
  }

  // ---------------------------------------------------------------- invariant

  ghost predicate PhasesAgree(s: Server) {
    && (s.phase.WriterClosing? <==> s.w.closer.FlagSet? || s.w.closer.Waiting?)
    && (s.phase.WriterDone? || s.phase.StorageClosed? <==> s.w.closer.ReturnedNil? || s.w.closer.ReturnedErr?)
    && (s.harvestOver ==> s.w.closedAt.Some?)
    && (s.httpNil ==> !s.phase.Serving? && !s.phase.Signalled? && !s.phase.HarvesterStopped?)
    && (s.phase.StorageClosed? <==> s.opsAtClose.Some?)
  }

  ghost predicate Populated(s: Server) {
    && s.w.inflight.Keys <= s.threads.Keys
    && (s.startReturned ==> Nobody(s.threads, StartupLoop))
    && (s.harvestOver ==> HarvestOver(s))
    && (s.httpNil ==> Nobody(s.threads, Handler))
  }

  ghost predicate Quiet(s: Server) { s.harvestOver && s.httpNil }

  ghost predicate Inv(c: P.Config, s: Server) { P.Inv(c, s.w) && ServerInv(s) }

  ghost predicate ServerInv(s: Server) {
    P.Phased(s.w) && PhasesAgree(s) && Populated(s) && NothingLeft(s) && StorageUntouched(s)
  }

  ghost predicate NothingLeft(s: Server) {
    Quiet(s) && s.w.emptyReadAt.Some? ==> s.w.ch == []
  }

  ghost predicate StorageUntouched(s: Server) {
    s.opsAtClose.Some? && s.w.closer.ReturnedNil? ==> |s.w.ops| == s.opsAtClose.value
  }

  /** Every kind of producer is gone once the harvest is over and the HTTP shutdown has returned nil. */
  lemma QuietMeansNobody(s: Server)
    requires Populated(s) && HarvestOver(s) && s.httpNil
    ensures s.w.inflight == map[]
  {
    assert forall p :: p in s.threads ==> s.threads[p] != StartupLoop && s.threads[p] != Tailer && s.threads[p] != Handler;
    assert s.threads.Keys == {};
  }

  /** A step of the writer moves `Close` only as far as its own label says. */
  lemma CloserMoves(c: P.Config, w: P.State, b: P.Action)
    requires P.Enabled(w, b)
    ensures P.Apply(c, w, b).closer ==
      if b.SetClosed? then P.FlagSet else if b.CloseDone? then P.Waiting else if b.CloseReturnsNil? then P.ReturnedNil
      else if b.CloseTimesOut? then P.ReturnedErr else w.closer
  {
  }

  lemma PhasesStep(c: P.Config, s: Server, a: Action)
    requires PhasesAgree(s) && Enabled(s, a)
    ensures PhasesAgree(Apply(c, s, a))
  {
    if a.Writer? {
      CloserMoves(c, s.w, a.a);
    }
  }

  lemma InflightMoves(c: P.Config, w: P.State, b: P.Action)
    requires P.Enabled(w, b)
    ensures P.Apply(c, w, b).inflight.Keys <= w.inflight.Keys + if b.Check? then {b.producer} else {}
  {
  }

  lemma InflightStep(c: P.Config, s: Server, a: Action)
    requires s.w.inflight.Keys <= s.threads.Keys && Enabled(s, a)
    ensures var s' := Apply(c, s, a); s'.w.inflight.Keys <= s'.threads.Keys
  {
    if a.Writer? {
      InflightMoves(c, s.w, a.a);
    }
  }

  /** A kind of thread that is gone stays away unless one is spawned. */
  lemma GoneStep(c: P.Config, s: Server, a: Action, k: Kind)
    requires Nobody(s.threads, k) && Enabled(s, a) && a != Spawn(if a.Spawn? then a.p else 0, k)
    ensures Nobody(Apply(c, s, a).threads, k)
  {
    var s' := Apply(c, s, a);
    assert forall q :: q in s'.threads && !(a.Spawn? && q == a.p) ==> q in s.threads && s'.threads[q] == s.threads[q];
  }

  lemma PopulatedStep(c: P.Config, s: Server, a: Action)
    requires Populated(s) && PhasesAgree(s) && Enabled(s, a)
    ensures Populated(Apply(c, s, a))
  {
    InflightStep(c, s, a);
    if s.startReturned {
      GoneStep(c, s, a, StartupLoop);
    }
    if s.harvestOver {
      GoneStep(c, s, a, Tailer);
    }
    if s.httpNil {
      GoneStep(c, s, a, Handler);
    }
  }

  lemma NothingLeftStep(c: P.Config, s: Server, a: Action)
    requires NothingLeft(s) && Populated(s) && PhasesAgree(s) && P.Phased(s.w) && Enabled(s, a)
    ensures NothingLeft(Apply(c, s, a))
  {
    if Quiet(s) {
      QuietMeansNobody(s);
    }
  }

  lemma StorageUntouchedStep(c: P.Config, s: Server, a: Action)
    requires StorageUntouched(s) && PhasesAgree(s) && P.Phased(s.w) && Enabled(s, a)
    ensures StorageUntouched(Apply(c, s, a))
  {
  }

  lemma ServerStep(c: P.Config, s: Server, a: Action)
    requires ServerInv(s) && Enabled(s, a)
    ensures ServerInv(Apply(c, s, a))
  {
    PhasesStep(c, s, a);
    PopulatedStep(c, s, a);
    NothingLeftStep(c, s, a);
    StorageUntouchedStep(c, s, a);
    if a.Writer? {
      P.PhasedStep(c, s.w, a.a);
    }
  }

  lemma InvStep(c: P.Config, s: Server, a: Action)
    requires Inv(c, s) && Enabled(s, a)
    ensures Inv(c, Apply(c, s, a))
  {
    ServerStep(c, s, a);
    if a.Writer? {
      P.InvStep(c, s.w, a.a);
    }
  }

  lemma {:induction false} InvRun(c: P.Config, s: Server, acts: seq<Action>)
    requires Inv(c, s) && CanRun(c, s, acts)
    ensures Inv(c, Run(c, s, acts))
    decreases |acts|
  {
    if acts != [] {
      InvStep(c, s, acts[0]);
      InvRun(c, Apply(c, s, acts[0]), acts[1..]);
    }
  }

  /** `Shutdown` got through: the HTTP shutdown and `Close` returned nil, and the storage is closed. */
  ghost predicate Cleanly(s: Server) { s.phase.StorageClosed? && s.httpNil && s.w.closer.ReturnedNil? }

  /**
    The clean shutdown: when the harvest was over as `Close` set its flag, and the HTTP shutdown and `Close`
    both returned nil, then from the moment the storage is closed every entry for which `Enqueue` returned
    true has been handed to the storage (the batch committed or its insert failed), both workers are gone,
    and no call reaches the storage any more.
  */
  lemma CleanShutdown(c: P.Config, acts: seq<Action>)
    requires c.Valid() && CanRun(c, Init, acts)
    requires var s := Run(c, Init, acts); Cleanly(s) && s.harvestOver
    ensures var s := Run(c, Init, acts);
      && s.w.accepted == P.Written(s.w.ops) && s.w.ch == [] && s.w.batch == []
      && s.w.worker.WorkerExited? && s.w.pruner.PrunerExited?
      && s.opsAtClose == Some(|s.w.ops|)
  {
    P.InitInv(c);
    assert Inv(c, Init);
    InvRun(c, Init, acts);
    var s := Run(c, Init, acts);
    assert P.Written(s.w.ops) + [] + [] == P.Written(s.w.ops);
  }

  // ---------------------------------------------------------------- building runs

  lemma RunOne(c: P.Config, s: Server, a: Action, rest: seq<Action>) returns (acts: seq<Action>)
    requires Enabled(s, a) && CanRun(c, Apply(c, s, a), rest)
    ensures acts == [a] + rest && CanRun(c, s, acts) && Run(c, s, acts) == Run(c, Apply(c, s, a), rest)
  {
    acts := [a] + rest;
    assert acts[1..] == rest;
  }

  lemma {:induction false} RunThen(c: P.Config, s: Server, a: seq<Action>, b: seq<Action>)
    requires CanRun(c, s, a) && CanRun(c, Run(c, s, a), b)
    ensures CanRun(c, s, a + b) && Run(c, s, a + b) == Run(c, Run(c, s, a), b)
    decreases |a|
  {
    if a == [] {
      assert a + b == b;
    } else {
      assert (a + b)[1..] == a[1..] + b;
      RunThen(c, Apply(c, s, a[0]), a[1..], b);
    }
  }

  /** Steps of the worker and the pruner are open to the server while `Close` waits for them. */
  lemma {:induction false} LiftRun(c: P.Config, s: Server, ws: seq<P.Action>) returns (acts: seq<Action>)
    requires s.phase.WriterClosing? && P.CanRun(c, s.w, ws)
    requires forall i :: 0 <= i < |ws| ==> R.Internal(ws[i])
    ensures CanRun(c, s, acts) && Run(c, s, acts) == s.(w := P.Run(c, s.w, ws))
    decreases |ws|
  {
    acts := [];
    if ws != [] {
      var s1 := Apply(c, s, Writer(ws[0]));
      acts := LiftRun(c, s1, ws[1..]);
      acts := RunOne(c, s, Writer(ws[0]), acts);
    }
  }

  /** Every handler finishes its call of `Enqueue`, if it is in one, and returns. */
  lemma {:induction false} HandlersLeave(c: P.Config, s: Server) returns (acts: seq<Action>)
    requires Inv(c, s) && s.phase.HarvesterStopped?
    ensures CanRun(c, s, acts)
    ensures forall i :: 0 <= i < |acts| ==> OfHandlers(s, acts[i])
    ensures var s' := Run(c, s, acts);
      Inv(c, s') && s'.phase == s.phase && Nobody(s'.threads, Handler) && OthersStay(s, s')
    decreases |s.threads|
  {
    if h :| h in s.threads && s.threads[h] == Handler {
      var s1, first := HandlerLeaves(c, s, h);
      acts := HandlersLeave(c, s1);
      StillOfHandlers(s, s1, acts);
      RunThen(c, s, first, acts);
      acts := first + acts;
    } else {
      acts := [];
    }
  }

  lemma StillOfHandlers(s: Server, s1: Server, acts: seq<Action>)
    requires forall p :: p in s1.threads ==> p in s.threads && s1.threads[p] == s.threads[p]
    requires forall i :: 0 <= i < |acts| ==> OfHandlers(s1, acts[i])
    ensures forall i :: 0 <= i < |acts| ==> OfHandlers(s, acts[i])
  {
  }

  lemma HandlerLeaves(c: P.Config, s: Server, h: nat) returns (s': Server, acts: seq<Action>)
    requires Inv(c, s) && s.phase.HarvesterStopped? && h in s.threads && s.threads[h] == Handler
    ensures CanRun(c, s, acts) && s' == Run(c, s, acts) && Inv(c, s') && s'.phase == s.phase
    ensures forall i :: 0 <= i < |acts| ==> OfHandlers(s, acts[i])
    ensures s'.threads == s.threads - {h} && |s'.threads| < |s.threads| && OthersStay(s, s')
  {
    var s1, first := FinishCall(c, s, h);
    s' := Apply(c, s1, Leave(h));
    InvStep(c, s1, Leave(h));
    assert s'.threads.Keys == s.threads.Keys - {h};
    acts := RunOne(c, s1, Leave(h), []);
    RunThen(c, s, first, acts);
    acts := first + acts;
  }

  lemma FinishCall(c: P.Config, s: Server, h: nat) returns (s': Server, acts: seq<Action>)
    requires Inv(c, s) && s.phase.HarvesterStopped? && h in s.threads
    ensures acts == [] || acts == [Writer(P.Offer(h))]
    ensures CanRun(c, s, acts) && s' == Run(c, s, acts) && Inv(c, s')
    ensures s'.phase == s.phase && s'.threads == s.threads && h !in s'.w.inflight
    ensures forall p :: p in s.w.inflight && p != h ==> p in s'.w.inflight
  {
    s', acts := s, [];
    if h in s.w.inflight {
      s' := Apply(c, s, Writer(P.Offer(h)));
      InvStep(c, s, Writer(P.Offer(h)));
      acts := RunOne(c, s, Writer(P.Offer(h)), []);
    }
  }

  predicate OfHandlers(s: Server, a: Action) {
    (a.Writer? && a.a.Offer?) || (a.Leave? && a.p in s.threads && s.threads[a.p] == Handler)
  }

  /** Whoever is no handler is still there, inside `Enqueue` if it was. */
  ghost predicate OthersStay(s: Server, s': Server) {
    forall p :: p in s.threads && s.threads[p] != Handler ==>
      && p in s'.threads && s'.threads[p] == s.threads[p]
      && (p in s.w.inflight ==> p in s'.w.inflight)
  }

  lemma {:induction false} Fresh(keys: set<nat>) returns (p: nat)
    ensures p !in keys && forall q :: q in keys ==> q < p
  {
    p := 0;
    if keys != {} {
      var k :| k in keys;
      var q := Fresh(keys - {k});
      p := if q > k then q else k + 1;
      assert forall r :: r in keys ==> r == k || r in keys - {k};
    }
  }

  /** A tailer, or the startup loop, that may still get past the closed check. */
  lemma Intruder(c: P.Config, s: Server, e: LogEntry) returns (s': Server, acts: seq<Action>, p: nat)
    requires Inv(c, s) && s.phase.HarvesterStopped? && !HarvestOver(s)
    ensures CanRun(c, s, acts) && s' == Run(c, s, acts) && Inv(c, s') && s'.phase == s.phase
    ensures p in s'.threads && s'.threads[p] != Handler && p in s'.w.inflight
  {
    acts := [];
    s' := s;
    if q :| q in s.threads && s.threads[q] != Handler {
      p := q;
    } else {
      p := Fresh(s.threads.Keys);
      s' := Apply(c, s, Spawn(p, Tailer));
      InvStep(c, s, Spawn(p, Tailer));
      acts := RunOne(c, s, Spawn(p, Tailer), []);
    }
    if p !in s'.w.inflight {
      var more := PassesCheck(c, s', p, e);
      RunThen(c, s, acts, more);
      acts, s' := acts + more, Run(c, s', more);
    }
  }

  lemma PassesCheck(c: P.Config, s: Server, p: nat, e: LogEntry) returns (acts: seq<Action>)
    requires Inv(c, s) && s.phase.HarvesterStopped? && p in s.threads && p !in s.w.inflight
    ensures CanRun(c, s, acts)
    ensures var s' := Run(c, s, acts); Inv(c, s') && s'.phase == s.phase && s'.threads == s.threads && p in s'.w.inflight
  {
    InvStep(c, s, Writer(P.Check(p, e)));
    acts := RunOne(c, s, Writer(P.Check(p, e)), []);
  }

  /** With a call past its check, `Shutdown` can go through before that call sends. */
  lemma LossyClose(c: P.Config, s: Server, p: nat) returns (acts: seq<Action>)
    requires Inv(c, s) && s.phase.HttpDone? && s.httpNil && p in s.w.inflight
    ensures CanRun(c, s, acts)
    ensures var s' := Run(c, s, acts); Cleanly(s') && !R.AllWritten(s'.w)
  {
    var s1 := Apply(c, s, Writer(P.SetClosed));
    InvStep(c, s, Writer(P.SetClosed));
    var s2 := Apply(c, s1, Writer(P.CloseDone));
    InvStep(c, s1, Writer(P.CloseDone));
    var ws := R.WorkersFinish(c, s2.w);
    P.InvRun(c, s2.w, ws);
    acts := LiftRun(c, s2, ws);
    var s3 := Run(c, s2, acts);
    var last := LateSend(c, s3, p);
    RunThen(c, s2, acts, last);
    acts := RunOne(c, s1, Writer(P.CloseDone), acts + last);
    acts := RunOne(c, s, Writer(P.SetClosed), acts);
  }

  lemma LateSend(c: P.Config, s: Server, p: nat) returns (acts: seq<Action>)
    requires P.Inv(c, s.w) && s.phase.WriterClosing? && s.httpNil && s.w.closer.Waiting? && p in s.w.inflight
    requires s.w.worker.WorkerExited? && s.w.pruner.PrunerExited? && s.w.ch == []
    ensures CanRun(c, s, acts)
    ensures var s' := Run(c, s, acts); Cleanly(s') && !R.AllWritten(s'.w)
  {
    R.ExitedWroteAll(c, s.w);
    var s1 := Apply(c, s, Writer(P.CloseReturnsNil));
    var s2 := Apply(c, s1, CloseStorage);
    R.LateOffer(c, s2.w, p);
    acts := RunOne(c, s2, Writer(P.Offer(p)), []);
    acts := RunOne(c, s1, CloseStorage, acts);
    acts := RunOne(c, s, Writer(P.CloseReturnsNil), acts);
  }

  // ---------------------------------------------------------------- when a clean shutdown loses nothing

  /** However `Shutdown` goes on from `s`, if it gets through every accepted entry has been handed to the storage. */
  ghost predicate CleanMeansWritten(c: P.Config, s: Server) {
    forall acts :: CanRun(c, s, acts) && Cleanly(Run(c, s, acts)) ==> R.AllWritten(Run(c, s, acts).w)
  }

  lemma {:induction false} HarvestStaysOver(c: P.Config, s: Server, acts: seq<Action>)
    requires Inv(c, s) && HarvestOver(s) && (s.w.closedAt.Some? ==> s.harvestOver) && CanRun(c, s, acts)
    ensures var s' := Run(c, s, acts); Inv(c, s') && HarvestOver(s') && (s'.w.closedAt.Some? ==> s'.harvestOver)
    decreases |acts|
  {
    if acts != [] {
      InvStep(c, s, acts[0]);
      OverStep(c, s, acts[0]);
      HarvestStaysOver(c, Apply(c, s, acts[0]), acts[1..]);
    }
  }

  lemma OverStep(c: P.Config, s: Server, a: Action)
    requires HarvestOver(s) && (s.w.closedAt.Some? ==> s.harvestOver) && Enabled(s, a)
    ensures var s' := Apply(c, s, a); HarvestOver(s') && (s'.w.closedAt.Some? ==> s'.harvestOver)
  {
    if a.Leave? {
      assert forall q :: q in s.threads - {a.p} ==> q in s.threads;
    }
  }

  lemma OverLosesNothing(c: P.Config, s: Server)
    requires Inv(c, s) && s.harvestOver && Cleanly(s)
    ensures R.AllWritten(s.w)
  {
    assert P.Written(s.w.ops) + [] + [] == P.Written(s.w.ops);
  }

  lemma LossyRun(c: P.Config, s: Server, e: LogEntry) returns (acts: seq<Action>)
    requires Inv(c, s) && s.phase.HarvesterStopped? && !HarvestOver(s)
    ensures CanRun(c, s, acts)
    ensures var s' := Run(c, s, acts); Cleanly(s') && !R.AllWritten(s'.w)
  {
    var s1, first, p := Intruder(c, s, e);
    var second := HandlersLeave(c, s1);
    var s2 := Run(c, s1, second);
    var s3 := Apply(c, s2, HttpReturns(true));
    InvStep(c, s2, HttpReturns(true));
    var third := LossyClose(c, s3, p);
    third := RunOne(c, s2, HttpReturns(true), third);
    RunThen(c, s1, second, third);
    RunThen(c, s, first, second + third);
    acts := first + (second + third);
  }

  /**
    When `harvester.Stop` has returned, the rest of `Shutdown` is safe (getting through means that no
    accepted entry is left behind, whatever happens in between) if and only if `harvester.Start` has
    returned too and no tailer runs. `Stop` itself does not wait for `Start`.
  */
  lemma CleanShutdownIff(c: P.Config, s: Server)
    requires Inv(c, s) && s.phase.HarvesterStopped?
    ensures CleanMeansWritten(c, s) <==> HarvestOver(s)
  {
    if HarvestOver(s) {
      forall acts | CanRun(c, s, acts) && Cleanly(Run(c, s, acts)) ensures R.AllWritten(Run(c, s, acts).w) {
        HarvestStaysOver(c, s, acts);
        OverLosesNothing(c, Run(c, s, acts));
      }
    } else {
      var acts := LossyRun(c, s, LogEntry(0, "", "", "", map[]));
    }
  }

  // ---------------------------------------------------------------- a shutdown that runs out of time

  lemma CommittedAppend(ops: seq<P.StorageOp>, op: P.StorageOp)
    ensures P.Committed(ops + [op]) == P.Committed(ops) + if op.Write? && op.ok then op.batch else []
  {
    assert (ops + [op])[..|ops|] == ops;
  }

  lemma OnlyInsertsCommit(c: P.Config, w: P.State, b: P.Action)
    requires P.Enabled(w, b) && (b.WriteReturns? ==> !b.ok)
    ensures P.Committed(P.Apply(c, w, b).ops) == P.Committed(w.ops)
  {
    if b.WriteReturns? {
      CommittedAppend(w.ops, P.Write(w.batch, b.ok));
    } else if b.PruneReturns? {
      CommittedAppend(w.ops, P.Prune(b.threshold, b.ok));
    }
  }

  lemma ClosedForGood(c: P.Config, s: Server, a: Action)
    requires s.phase.StorageClosed? && PhasesAgree(s) && Enabled(s, a)
    ensures Apply(c, s, a).phase.StorageClosed? && P.Committed(Apply(c, s, a).w.ops) == P.Committed(s.w.ops)
  {
    if a.Writer? {
      OnlyInsertsCommit(c, s.w, a.a);
    }
  }

  /** Nothing is committed to a closed storage. */
  lemma {:induction false} CommittedFrozen(c: P.Config, s: Server, acts: seq<Action>)
    requires s.phase.StorageClosed? && PhasesAgree(s) && CanRun(c, s, acts)
    ensures P.Committed(Run(c, s, acts).w.ops) == P.Committed(s.w.ops)
    decreases |acts|
  {
    if acts != [] {
      PhasesStep(c, s, acts[0]);
      ClosedForGood(c, s, acts[0]);
      CommittedFrozen(c, Apply(c, s, acts[0]), acts[1..]);
    }
  }

  /** The storage is closed, and what has been committed is what had been committed in `before`, now and ever after. */
  ghost predicate NothingMoreCommitted(c: P.Config, before: P.State, s: Server) {
    && s.phase.StorageClosed? && s.w.accepted == before.accepted
    && forall acts :: CanRun(c, s, acts) ==> P.Committed(Run(c, s, acts).w.ops) == P.Committed(before.ops)
  }

  lemma TimesOut(c: P.Config, s: Server) returns (acts: seq<Action>)
    requires PhasesAgree(s) && s.phase.WriterClosing? && s.w.closer.Waiting?
    ensures acts == [Writer(P.CloseTimesOut), CloseStorage]
    ensures CanRun(c, s, acts) && NothingMoreCommitted(c, s.w, Run(c, s, acts))
  {
    var s1 := Apply(c, s, Writer(P.CloseTimesOut));
    PhasesStep(c, s, Writer(P.CloseTimesOut));
    var s2 := Apply(c, s1, CloseStorage);
    PhasesStep(c, s1, CloseStorage);
    forall more | CanRun(c, s2, more) ensures P.Committed(Run(c, s2, more).w.ops) == P.Committed(s.w.ops) {
      CommittedFrozen(c, s2, more);
    }
    acts := RunOne(c, s1, CloseStorage, []);
    acts := RunOne(c, s, Writer(P.CloseTimesOut), acts);
  }

  /**
    When the time given to `Shutdown` is over, `Close` does not wait for the drain, and the storage is
    closed all the same: from every state after `harvester.Stop` there is a run in which nothing that is
    still pending then is ever committed.
  */
  lemma TimeoutLosesPending(c: P.Config, s: Server) returns (acts: seq<Action>)
    requires Inv(c, s) && s.phase.HarvesterStopped?
    ensures acts == [HttpReturns(false), Writer(P.SetClosed), Writer(P.CloseDone), Writer(P.CloseTimesOut), CloseStorage]
    ensures CanRun(c, s, acts) && NothingMoreCommitted(c, s.w, Run(c, s, acts))
  {
    var s1 := Apply(c, s, HttpReturns(false));
    var s2 := Apply(c, s1, Writer(P.SetClosed));
    var s3 := Apply(c, s2, Writer(P.CloseDone));
    InvStep(c, s, HttpReturns(false));
    InvStep(c, s1, Writer(P.SetClosed));
    InvStep(c, s2, Writer(P.CloseDone));
    acts := TimesOut(c, s3);
    acts := RunOne(c, s2, Writer(P.CloseDone), acts);
    acts := RunOne(c, s1, Writer(P.SetClosed), acts);
    acts := RunOne(c, s, HttpReturns(false), acts);
  }
}
