/**
  The log writer as the program has it: an object whose fields the producers, the worker, the pruner and
  `Close` update one atomic step at a time. Each method is one such step and refines one action of
  `LogPipeline`; the longer operations (`Enqueue`, the drain loop, the ingest handler) are built from
  these steps, with the steps of the other goroutines handed in as a schedule that may fall into any gap.
*/
module AsyncLogWriting {
  import opened LogEntries
  import opened LogPipeline
  import opened Sequences
  import R = LogPipelineResults

  function Normalized(bufferSize: int, batchSize: int): (c: Config)
    ensures c.Valid()
    ensures c.bufferSize == 5000 || c.bufferSize == bufferSize
    ensures bufferSize > 0 ==> c.bufferSize == bufferSize
    ensures c.batchSize == 200 || c.batchSize == batchSize
    ensures batchSize > 0 ==> c.batchSize == batchSize
  {
    Config(if bufferSize <= 0 then 5000 else bufferSize, if batchSize <= 0 then 200 else batchSize)
  }

  /** The entries that producer `p` has had accepted, in order. */
  function SentBy(p: nat, xs: seq<Send>): seq<LogEntry> {
    if xs == [] then [] else
      var last := xs[|xs| - 1];
      SentBy(p, xs[..|xs| - 1]) + if last.producer == p then [last.entry] else []
  }

  lemma SentByAppend(p: nat, xs: seq<Send>, x: Send)
    ensures SentBy(p, xs + [x]) == SentBy(p, xs) + if x.producer == p then [x.entry] else []
  {
    assert (xs + [x])[..|xs|] == xs;
  }

  predicate ActsFor(p: nat, a: Action) {
    (a.Check? || a.Offer?) && a.producer == p
  }

  lemma OthersKeepMySends(c: Config, s: State, a: Action, p: nat)
    requires Enabled(s, a) && !ActsFor(p, a)
    ensures var s' := Apply(c, s, a);
      && SentBy(p, s'.accepted) == SentBy(p, s.accepted)
      && (p in s'.inflight <==> p in s.inflight) && (p in s.inflight ==> s'.inflight[p] == s.inflight[p])
  {
    if a.Offer? {
      var call := s.inflight[a.producer];
      SentByAppend(p, s.accepted, Send(a.producer, call.entry, call.checkedAt, s.clock));
    }
  }

  /** What the ingest handler does to an entry before it offers it. */
  function Defaulted(e: LogEntry, now: int): LogEntry {
    e.(timestamp := if e.timestamp == ZERO_TIME then now else e.timestamp,
       level := if e.level == "" then "INFO" else e.level,
       service := if e.service == "" then "default" else e.service)
  }

  /** The defaulted entries of the turns of the loop in which `Enqueue` returned true. */
  function Kept(entries: seq<LogEntry>, now: int, kept: seq<bool>): seq<LogEntry>
    requires |kept| <= |entries|
  {
    if kept == [] then [] else
      var n := |kept| - 1;
      Kept(entries, now, kept[..n]) + if kept[n] then [Defaulted(entries[n], now)] else []
  }

  lemma KeptStep(entries: seq<LogEntry>, now: int, kept: seq<bool>, ok: bool)
    requires |kept| < |entries|
    ensures Kept(entries, now, kept + [ok]) == Kept(entries, now, kept) + if ok then [Defaulted(entries[|kept|], now)] else []
  {
    assert (kept + [ok])[..|kept|] == kept;
  }

  /** From `s` to `s'` the worker did nothing, and accepted entries can only have been added. */
  ghost predicate WorkerWaited(s: State, s': State) {
    s.accepted <= s'.accepted && s'.emptyReadAt == s.emptyReadAt && s.clock <= s'.clock
  }

  lemma WaitStep(c: Config, s0: State, s: State, a: Action)
    requires WorkerWaited(s0, s) && Enabled(s, a) && R.Leaving(s) && !R.WorkerAction(a)
    ensures WorkerWaited(s0, Apply(c, s, a)) && Apply(c, s, a).worker == s.worker
  {
  }

  /** `s` is a later state than `s0`; an empty read, if there was one, came in between. */
  ghost predicate Since(s0: State, s: State) {
    s0.accepted <= s.accepted && s0.clock <= s.clock && (s.emptyReadAt.Some? ==> s0.clock <= s.emptyReadAt.value)
  }

  lemma BeforeStep(c: Config, s0: State, s: State, a: Action)
    requires Since(s0, s) && Enabled(s, a)
    ensures Since(s0, Apply(c, s, a))
  {
  }

  /** At the worker's exit everything accepted before `s0` has been written: what is left was sent later. */
  lemma DrainedAll(c: Config, s0: State, s: State)
    requires Timed(s0) && Since(s0, s) && s.worker.WorkerExited?
    requires Conserved(s) && Bounded(c, s) && Phased(s) && Split(s)
    ensures s0.accepted <= Written(s.ops) && s.accepted == Written(s.ops) + s.ch
    ensures s.emptyReadAt.Some? && forall x :: x in s.ch ==> s.emptyReadAt.value < x.sentAt
  {
    var w := Written(s.ops);
    assert w + [] + s.ch == w + s.ch;
    assert s.ch != [] ==> s.accepted[|w|] == s.ch[0];
    assert forall i :: 0 <= i < |s0.accepted| ==> w[i] == s.accepted[i];
  }

  const ACCEPTED := 202
  const TOO_MANY_REQUESTS := 429

  class AsyncLogWriter {
    const cfg: Config
    var ch: seq<Send>
    var done: bool
    var closedAt: Option<nat>
    var batch: seq<Send>
    var inflight: map<nat, Call>
    var worker: Worker
    var pruner: Pruner
    var closer: Closer
    ghost var ops: seq<StorageOp>
    ghost var accepted: seq<Send>
    ghost var emptyReadAt: Option<nat>
    var clock: nat

    ghost function Model(): State
      reads this
    {
      State(ch, inflight, batch, worker, pruner, closer, closedAt, done, ops, accepted, emptyReadAt, clock)
    }

    constructor (bufferSize: int, batchSize: int)
      ensures cfg == Normalized(bufferSize, batchSize) && Model() == Init
    {
      cfg := Normalized(bufferSize, batchSize);
      ch, inflight, batch := [], map[], [];
      worker, pruner, closer := Selecting, Sleeping, NotClosing;
      closedAt, done, ops, accepted, emptyReadAt, clock := None, false, [], [], None, 0;
    }

    // ------------------------------------------------------------ producers

    method PassClosedCheck(p: nat, e: LogEntry) returns (open: bool)
      requires p !in inflight
      modifies this
      ensures open == old(closedAt).None?
      ensures Model() == Apply(cfg, old(Model()), Check(p, e))
    {
      open := closedAt.None?;
      if open {
        inflight := inflight[p := Call(e, clock)];
      }
      clock := clock + 1;
    }

    method TrySend(p: nat) returns (ok: bool)
      requires p in inflight
      modifies this
      ensures ok == (|old(ch)| < cfg.bufferSize)
      ensures Model() == Apply(cfg, old(Model()), Offer(p))
    {
      ok := |ch| < cfg.bufferSize;
      if ok {
        var sent := Send(p, inflight[p].entry, inflight[p].checkedAt, clock);
        ch := ch + [sent];
        accepted := accepted + [sent];
      }
      inflight := inflight - {p};
      clock := clock + 1;
    }

    // ------------------------------------------------------------ the batch worker

    method ReceiveIntoBatch()
      requires Enabled(Model(), Receive)
      modifies this
      ensures Model() == Apply(cfg, old(Model()), Receive)
      ensures batch + ch == old(batch + ch) && |batch| == old(|batch|) + 1
    {
      batch := batch + [ch[0]];
      ch := ch[1..];
      if |batch| >= cfg.batchSize {
        worker := Writing(if worker.Selecting? then BackToSelect else BackToDrain);
      }
      clock := clock + 1;
    }

    method FlushOnTick()
      requires Enabled(Model(), FlushTick)
      modifies this
      ensures Model() == Apply(cfg, old(Model()), FlushTick)
      ensures worker == if old(batch) == [] then Selecting else Writing(BackToSelect)
    {
      if batch != [] {
        worker := Writing(BackToSelect);
      }
      clock := clock + 1;
    }

    method StartDraining()
      requires Enabled(Model(), LogPipeline.Action.SeeDone)
      modifies this
      ensures Model() == Apply(cfg, old(Model()), SeeDone)
    {
      worker := Draining;
      clock := clock + 1;
    }

    method FindEmpty()
      requires Enabled(Model(), EmptyRead)
      modifies this
      ensures Model() == Apply(cfg, old(Model()), EmptyRead)
    {
      emptyReadAt := Some(clock);
      worker := if batch == [] then WorkerExited else Writing(ThenExit);
      clock := clock + 1;
    }

    /** The return of `WriteBatch`: an error is only logged, and the batch is emptied all the same. */
    method FinishFlush(ok: bool)
      requires Enabled(Model(), WriteReturns(ok))
      modifies this
      ensures Model() == Apply(cfg, old(Model()), WriteReturns(ok))
    {
      ops := ops + [Write(batch, ok)];
      batch := [];
      worker := Resume(worker.after);
      clock := clock + 1;
    }

    // ------------------------------------------------------------ the pruner and Close

    method StepPruner(a: Action)
      requires (a.PruneTick? || a.PruneReturns? || a.PrunerSeesDone?) && Enabled(Model(), a)
      modifies this
      ensures Model() == Apply(cfg, old(Model()), a)
    {
      if a.PruneReturns? {
        ops, pruner := ops + [Prune(a.threshold, a.ok)], Sleeping;
      } else {
        pruner := if a.PruneTick? then Pruning else PrunerExited;
      }
      clock := clock + 1;
    }

    method StepClose(a: Action)
      requires a.SetClosed? || a.CloseDone? || a.CloseReturnsNil? || a.CloseTimesOut? || a.CloseAgain?
      requires Enabled(Model(), a)
      modifies this
      ensures Model() == Apply(cfg, old(Model()), a)
    {
      if a.SetClosed? {
        closedAt, closer := Some(clock), FlagSet;
      } else if a.CloseDone? {
        done, closer := true, Waiting;
      } else if !a.CloseAgain? {
        closer := if a.CloseReturnsNil? then ReturnedNil else ReturnedErr;
      }
      clock := clock + 1;
    }

    // ------------------------------------------------------------ other goroutines

    method Perform(a: Action)
      requires Enabled(Model(), a)
      modifies this
      ensures Model() == Apply(cfg, old(Model()), a)
    {
      match a {
        case Check(p, e) => var _ := PassClosedCheck(p, e);
        case Offer(p) => var _ := TrySend(p);
        case Receive => ReceiveIntoBatch();
        case FlushTick => FlushOnTick();
        case SeeDone => StartDraining();
        case EmptyRead => FindEmpty();
        case WriteReturns(ok) => FinishFlush(ok);
        case PruneTick => StepPruner(a);
        case PruneReturns(_, _) => StepPruner(a);
        case PrunerSeesDone => StepPruner(a);
        case _ => StepClose(a);
      }
    }

    /** Whether `Perform(a)` is possible now. */
    method IsEnabled(a: Action) returns (b: bool)
      ensures b == Enabled(Model(), a)
    {
      match a {
        case Check(p, _) => b := p !in inflight;
        case Offer(p) => b := p in inflight;
        case Receive => b := (worker.Selecting? || worker.Draining?) && ch != [];
        case FlushTick => b := worker.Selecting?;
        case SeeDone => b := worker.Selecting? && done;
        case EmptyRead => b := worker.Draining? && ch == [];
        case WriteReturns(_) => b := worker.Writing?;
        case PruneTick => b := pruner.Sleeping?;
        case PruneReturns(_, _) => b := pruner.Pruning?;
        case PrunerSeesDone => b := pruner.Sleeping? && done;
        case SetClosed => b := closer.NotClosing?;
        case CloseDone => b := closer.FlagSet?;
        case CloseReturnsNil => b := closer.Waiting? && worker.WorkerExited? && pruner.PrunerExited?;
        case CloseTimesOut => b := closer.Waiting?;
        case CloseAgain => b := closedAt.Some?;
      }
    }

    /** Everyone but producer `p` runs: each step of the schedule that is possible when its turn comes is taken. */
    method Others(p: nat, schedule: seq<Action>) returns (ghost taken: seq<Action>)
      modifies this
      ensures CanRun(cfg, old(Model()), taken) && Model() == Run(cfg, old(Model()), taken)
      ensures SentBy(p, accepted) == old(SentBy(p, accepted))
      ensures p in inflight <==> old(p in inflight)
      ensures p in inflight ==> inflight[p] == old(inflight)[p]
    {
      taken := [];
      for i := 0 to |schedule|
        invariant CanRun(cfg, old(Model()), taken) && Model() == Run(cfg, old(Model()), taken)
        invariant SentBy(p, accepted) == old(SentBy(p, accepted))
        invariant p in inflight <==> old(p in inflight)
        invariant p in inflight ==> inflight[p] == old(inflight)[p]
      {
        var able := IsEnabled(schedule[i]);
        if able && !ActsFor(p, schedule[i]) {
          OthersKeepMySends(cfg, Model(), schedule[i], p);
          RunSnoc(cfg, old(Model()), taken, schedule[i]);
          Perform(schedule[i]);
          taken := taken + [schedule[i]];
        }
      }
    }

    /** `Enqueue`, with anything the others do between the closed check and the send. */
    method Enqueue(p: nat, e: LogEntry, gap: seq<Action>) returns (ok: bool, ghost taken: seq<Action>)
      requires p !in inflight
      modifies this
      ensures CanRun(cfg, old(Model()), taken) && Model() == Run(cfg, old(Model()), taken)
      ensures p !in inflight
      ensures SentBy(p, accepted) == old(SentBy(p, accepted)) + if ok then [e] else []
      ensures old(closedAt).Some? ==> !ok
    {
      ghost var s0 := Model();
      assert CanRun(cfg, s0, []) && Run(cfg, s0, []) == s0;
      var open := PassClosedCheck(p, e);
      RunSnoc(cfg, s0, [], Check(p, e));
      taken := [] + [Check(p, e)];
      ok := false;
      if open {
        ghost var during := Others(p, gap);
        RunConcat(cfg, s0, taken, during);
        taken := taken + during;
        ghost var s1 := Model();
        SentByAppend(p, s1.accepted, Send(p, e, inflight[p].checkedAt, clock));
        RunSnoc(cfg, s0, taken, Offer(p));
        ok := TrySend(p);
        taken := taken + [Offer(p)];
      }
    }

    /** One turn of the ingest handler's loop: what others do before the call of `Enqueue`, and the call. */
    method Ingest(p: nat, e: LogEntry, before: seq<Action>, gap: seq<Action>) returns (ok: bool, ghost taken: seq<Action>)
      requires p !in inflight
      modifies this
      ensures CanRun(cfg, old(Model()), taken) && Model() == Run(cfg, old(Model()), taken)
      ensures p !in inflight && SentBy(p, accepted) == old(SentBy(p, accepted)) + if ok then [e] else []
    {
      ghost var first := Others(p, before);
      var sent, second := Enqueue(p, e, gap);
      RunConcat(cfg, old(Model()), first, second);
      ok, taken := sent, first + second;
    }

    /**
      The accounting loop of the ingest handler running as producer `p`, with `gaps[2 * i]` before and
      `gaps[2 * i + 1]` inside its i-th call of `Enqueue`. The counts add up, the accepted count is the
      number of its own sends, and what it broadcasts is what it sent.
    */
    method HandleIngestLogs(p: nat, entries: seq<LogEntry>, now: int, gaps: seq<seq<Action>>)
      returns (acceptedCount: nat, dropped: nat, status: int, published: seq<LogEntry>,
               ghost kept: seq<bool>, ghost taken: seq<Action>)
      requires p !in inflight && |gaps| == 2 * |entries|
      modifies this
      ensures CanRun(cfg, old(Model()), taken) && Model() == Run(cfg, old(Model()), taken)
      ensures acceptedCount + dropped == |entries| && acceptedCount == |published|
      ensures |kept| == |entries| && published == Kept(entries, now, kept)
      ensures SentBy(p, accepted) == old(SentBy(p, accepted)) + published
      ensures status == if entries != [] && published == [] then 429 else 202
    {
      acceptedCount, dropped, published, kept, taken := 0, 0, [], [], [];
      for i := 0 to |entries|
        invariant p !in inflight
        invariant CanRun(cfg, old(Model()), taken) && Model() == Run(cfg, old(Model()), taken)
        invariant acceptedCount + dropped == i && acceptedCount == |published|
        invariant |kept| == i && published == Kept(entries, now, kept)
        invariant SentBy(p, accepted) == old(SentBy(p, accepted)) + published
      {
        var entry := Defaulted(entries[i], now);
        var ok, more := Ingest(p, entry, gaps[2 * i], gaps[2 * i + 1]);
        RunConcat(cfg, old(Model()), taken, more);
        taken := taken + more;
        KeptStep(entries, now, kept, ok);
        Associate(old(SentBy(p, accepted)), published, [entry]);
        kept := kept + [ok];
        if ok {
          acceptedCount := acceptedCount + 1;
          published := published + [entry];
        } else {
          dropped := dropped + 1;
        }
      }
      status := if acceptedCount == 0 && dropped > 0 then TOO_MANY_REQUESTS else ACCEPTED;
    }

    // ------------------------------------------------------------ the drain loop

    /** Everyone but the worker runs; its place and what it holds stay as they are. */
    method Meanwhile(schedule: seq<Action>) returns (ghost taken: seq<Action>)
      requires Inv(cfg, Model()) && R.Leaving(Model())
      modifies this
      ensures CanRun(cfg, old(Model()), taken) && Model() == Run(cfg, old(Model()), taken)
      ensures Inv(cfg, Model()) && R.Leaving(Model()) && R.Remaining(Model()) <= old(R.Remaining(Model()))
      ensures worker == old(worker) && WorkerWaited(old(Model()), Model())
    {
      taken := [];
      for i := 0 to |schedule|
        invariant CanRun(cfg, old(Model()), taken) && Model() == Run(cfg, old(Model()), taken)
        invariant Inv(cfg, Model()) && R.Leaving(Model()) && R.Remaining(Model()) <= old(R.Remaining(Model()))
        invariant worker == old(worker) && WorkerWaited(old(Model()), Model())
      {
        var able := IsEnabled(schedule[i]);
        if able && !R.WorkerAction(schedule[i]) {
          InvStep(cfg, Model(), schedule[i]);
          R.DrainStep(cfg, Model(), schedule[i]);
          WaitStep(cfg, old(Model()), Model(), schedule[i]);
          RunSnoc(cfg, old(Model()), taken, schedule[i]);
          Perform(schedule[i]);
          taken := taken + [schedule[i]];
        }
      }
    }

    /** One step of the worker in its drain loop: the return of a write, a receive, or the empty read. */
    method WorkerStep(answer: bool) returns (ghost a: Action)
      requires Inv(cfg, Model()) && R.Leaving(Model()) && !worker.WorkerExited?
      modifies this
      ensures old(Enabled(Model(), a)) && R.WorkerAction(a) && Model() == Apply(cfg, old(Model()), a)
    {
      if worker.Writing? {
        a := WriteReturns(answer);
        FinishFlush(answer);
      } else if ch != [] {
        a := Receive;
        ReceiveIntoBatch();
      } else {
        a := EmptyRead;
        FindEmpty();
      }
    }

    /**
      The drain loop, with any steps of the others before each of the worker's: it ends, and by then every
      entry accepted before it began has been handed to the storage, in order and before any later one,
      whatever the storage answers. What is left in the channel was sent after the worker's empty read;
      nothing is left when no call was past its check at the beginning.
    */
    method Drain(answer: nat -> bool, gaps: nat -> seq<Action>) returns (ghost taken: seq<Action>)
      requires Inv(cfg, Model()) && worker.Draining?
      modifies this
      ensures CanRun(cfg, old(Model()), taken) && Model() == Run(cfg, old(Model()), taken)
      ensures Inv(cfg, Model()) && worker.WorkerExited? && batch == []
      ensures old(accepted) <= Written(ops) && accepted == Written(ops) + ch
      ensures emptyReadAt.Some? && forall x :: x in ch ==> emptyReadAt.value < x.sentAt
      ensures old(inflight) == map[] ==> ch == []
    {
      ghost var s0 := Model();
      taken := [];
      var turn := 0;
      while !worker.WorkerExited?
        invariant CanRun(cfg, s0, taken) && Model() == Run(cfg, s0, taken)
        invariant Inv(cfg, Model()) && R.Leaving(Model()) && Since(s0, Model())
        decreases R.Remaining(Model())
      {
        ghost var before := Meanwhile(gaps(turn));
        RunConcat(cfg, s0, taken, before);
        taken := taken + before;
        ghost var s1 := Model();
        ghost var a := WorkerStep(answer(clock));
        InvStep(cfg, s1, a);
        R.DrainStep(cfg, s1, a);
        BeforeStep(cfg, s0, s1, a);
        RunSnoc(cfg, s0, taken, a);
        taken := taken + [a];
        turn := turn + 1;
      }
      DrainedAll(cfg, s0, Model());
      if s0.inflight == map[] {
        R.SealedRun(cfg, s0, taken);
      }
    }
  }
}
