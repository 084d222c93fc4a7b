/** What holds of the log pipeline over all runs: conservation, the exact loss of a racing close, and draining. */
module LogPipelineResults {
  import opened LogEntries
  import opened LogPipeline

  // ---------------------------------------------------------------- conservation

  lemma InOrderParts(a: seq<Send>, b: seq<Send>)
    requires InSendOrder(a + b)
    ensures InSendOrder(a) && InSendOrder(b)
    ensures forall x, y :: x in a && y in b ==> x.sentAt < y.sentAt
  {
    var ab := a + b;
    assert forall i :: 0 <= i < |a| ==> ab[i] == a[i];
    assert forall j :: 0 <= j < |b| ==> ab[|a| + j] == b[j];
    forall x, y | x in a && y in b ensures x.sentAt < y.sentAt {
      var i :| 0 <= i < |a| && a[i] == x;
      var j :| 0 <= j < |b| && b[j] == y;
      assert ab[i].sentAt < ab[|a| + j].sentAt;
    }
  }

  lemma {:induction false} CommittedInOrder(ops: seq<StorageOp>)
    requires InSendOrder(Written(ops))
    ensures InSendOrder(Committed(ops))
    ensures forall x :: x in Committed(ops) ==> x in Written(ops)
  {
    if ops != [] {
      var front, last := ops[..|ops| - 1], ops[|ops| - 1];
      InOrderParts(Written(front), if last.Write? then last.batch else []);
      CommittedInOrder(front);
    }
  }

  /** A written entry that was not committed lies in a batch whose insert failed. */
  lemma {:induction false} UncommittedWasFailed(ops: seq<StorageOp>, x: Send)
    requires x in Written(ops) && x !in Committed(ops)
    ensures exists i :: 0 <= i < |ops| && ops[i].Write? && !ops[i].ok && x in ops[i].batch
  {
    var front, last := ops[..|ops| - 1], ops[|ops| - 1];
    if last.Write? && x in last.batch {
      assert !last.ok;
    } else {
      UncommittedWasFailed(front, x);
      var i :| 0 <= i < |front| && front[i].Write? && !front[i].ok && x in front[i].batch;
      assert ops[i] == front[i];
    }
  }

  /**
    Over every interleaving the accepted sends, in send order, are what was handed to the storage, then
    the current batch, then the channel; commits are first-in first-out and free of duplicates; at most
    BufferSize + BatchSize entries are pending, and every batch written has between 1 and BatchSize entries.
  */
  lemma Conservation(c: Config, acts: seq<Action>)
    requires c.Valid() && CanRun(c, Init, acts)
    ensures var s := Run(c, Init, acts);
      && s.accepted == Written(s.ops) + s.batch + s.ch
      && InSendOrder(s.accepted) && InSendOrder(Committed(s.ops))
      && |s.batch| + |s.ch| <= c.batchSize + c.bufferSize
      && forall i :: 0 <= i < |s.ops| && s.ops[i].Write? ==> 1 <= |s.ops[i].batch| <= c.batchSize
  {
    InitInv(c);
    InvRun(c, Init, acts);
    var s := Run(c, Init, acts);
    var w := Written(s.ops);
    assert forall i :: 0 <= i < |w| ==> w[i] == s.accepted[i];
    CommittedInOrder(s.ops);
  }

  // ---------------------------------------------------------------- loss on a racing close

  /**
    When the worker has exited, the accepted entries that were never handed to the storage are exactly
    those sent after its last, empty read; each comes from a call that passed the closed check before the
    flag was set.
  */
  lemma ExactLoss(c: Config, acts: seq<Action>, x: Send)
    requires c.Valid() && CanRun(c, Init, acts)
    requires var s := Run(c, Init, acts); s.worker.WorkerExited? && x in s.accepted
    ensures var s := Run(c, Init, acts);
      && s.emptyReadAt.Some? && s.closedAt.Some?
      && (x in Written(s.ops) <==> x.sentAt < s.emptyReadAt.value)
      && (x in s.ch <==> s.emptyReadAt.value < x.sentAt)
      && (x in s.ch ==> x.checkedAt < s.closedAt.value < s.emptyReadAt.value < x.sentAt)
  {
    InitInv(c);
    InvRun(c, Init, acts);
    LossIn(c, Run(c, Init, acts), x);
  }

  lemma LossIn(c: Config, s: State, x: Send)
    requires Conserved(s) && Bounded(c, s) && Phased(s) && Timed(s) && Split(s)
    requires s.worker.WorkerExited? && x in s.accepted
    ensures s.emptyReadAt.Some? && s.closedAt.Some?
    ensures x in Written(s.ops) <==> x.sentAt < s.emptyReadAt.value
    ensures x in s.ch <==> s.emptyReadAt.value < x.sentAt
    ensures x in s.ch ==> x.checkedAt < s.closedAt.value < s.emptyReadAt.value < x.sentAt
  {
    var w := Written(s.ops);
    assert s.accepted == w + s.ch;
    assert forall i :: 0 <= i < |w| ==> w[i] == s.accepted[i];
    var k :| 0 <= k < |s.accepted| && s.accepted[k] == x;
    if k < |w| {
      assert x == w[k];
    } else {
      assert x == s.ch[k - |w|];
    }
  }

  /** An accepted entry that the worker's exit left in the channel is never handed to the storage afterwards. */
  lemma StrandedForever(c: Config, s: State, acts: seq<Action>, x: Send)
    requires Inv(c, s) && s.worker.WorkerExited? && CanRun(c, s, acts) && x in s.ch
    ensures x !in Written(Run(c, s, acts).ops)
  {
    WrittenFrozen(c, s, acts);
    LeftInChannelIsUnwritten(c, s, x);
  }

  lemma LeftInChannelIsUnwritten(c: Config, s: State, x: Send)
    requires Inv(c, s) && s.worker.WorkerExited? && x in s.ch
    ensures x !in Written(s.ops)
  {
    var w := Written(s.ops);
    assert s.accepted == w + s.ch;
    assert forall i :: 0 <= i < |w| ==> s.accepted[i] == w[i];
  }

  lemma WrittenFrozenStep(c: Config, s: State, a: Action)
    requires s.worker.WorkerExited? && Enabled(s, a)
    ensures var s' := Apply(c, s, a); s'.worker.WorkerExited? && Written(s'.ops) == Written(s.ops)
  {
    if a.PruneReturns? {
      WrittenAppend(s.ops, Prune(a.threshold, a.ok));
    }
  }

  lemma {:induction false} WrittenFrozen(c: Config, s: State, acts: seq<Action>)
    requires s.worker.WorkerExited? && CanRun(c, s, acts)
    ensures var s' := Run(c, s, acts); s'.worker.WorkerExited? && Written(s'.ops) == Written(s.ops)
    decreases |acts|
  {
    if acts != [] {
      WrittenFrozenStep(c, s, acts[0]);
      WrittenFrozen(c, Apply(c, s, acts[0]), acts[1..]);
    }
  }

  lemma RunOne(c: Config, s: State, a: Action, rest: seq<Action>) returns (acts: seq<Action>)
    requires Enabled(s, a) && CanRun(c, Apply(c, s, a), rest)
    ensures acts == [a] + rest && CanRun(c, s, acts) && Run(c, s, acts) == Run(c, Apply(c, s, a), rest)
  {
    acts := [a] + rest;
    assert acts[1..] == rest;
  }

  // ---------------------------------------------------------------- draining

  /** The worker has left its select for good. */
  ghost predicate Leaving(s: State) {
    s.worker.Draining? || s.worker.WorkerExited? || (s.worker.Writing? && !s.worker.after.BackToSelect?)
  }

  function WorkerRank(w: Worker): nat {
    match w
    case WorkerExited => 0
    case Writing(ThenExit) => 1
    case Writing(_) => 3
    case _ => 2
  }

  function Remaining(s: State): nat {
    3 * |s.inflight| + 2 * |s.ch| + WorkerRank(s.worker)
  }

  predicate WorkerAction(a: Action) { a.Receive? || a.EmptyRead? || a.WriteReturns? }

  function ProgressCount(acts: seq<Action>): nat {
    if acts == [] then 0 else
      (if WorkerAction(acts[0]) || acts[0].Offer? then 1 else 0) + ProgressCount(acts[1..])
  }

  lemma DrainStep(c: Config, s: State, a: Action)
    requires Phased(s) && Leaving(s) && Enabled(s, a)
    ensures var s' := Apply(c, s, a);
      && Leaving(s')
      && Remaining(s') + (if WorkerAction(a) || a.Offer? then 1 else 0) <= Remaining(s)
  {
    if a.Offer? {
      assert (s.inflight - {a.producer}).Keys == s.inflight.Keys - {a.producer};
      assert |s.inflight - {a.producer}| == |s.inflight| - 1;
    }
  }

  /**
    Once the worker drains, it takes at most `Remaining` steps of the worker and of producers past the
    check until it exits, however the others interleave; and until then one of its own steps is possible.
  */
  lemma {:induction false} DrainTerminates(c: Config, s: State, acts: seq<Action>)
    requires Phased(s) && Leaving(s) && CanRun(c, s, acts)
    ensures var s' := Run(c, s, acts);
      && Leaving(s')
      && ProgressCount(acts) + Remaining(s') <= Remaining(s)
      && (s'.worker.WorkerExited? || exists a :: WorkerAction(a) && Enabled(s', a))
    decreases |acts|
  {
    if acts == [] {
      if !s.worker.WorkerExited? {
        var a := if s.worker.Writing? then WriteReturns(true) else if s.ch != [] then Receive else EmptyRead;
        assert WorkerAction(a) && Enabled(s, a);
      }
    } else {
      PhasedStep(c, s, acts[0]);
      DrainStep(c, s, acts[0]);
      DrainTerminates(c, Apply(c, s, acts[0]), acts[1..]);
    }
  }

  // ---------------------------------------------------------------- what the worker does before the end

  /** The ticker hands over whatever is in the batch, however little it is, and the worker goes on selecting. */
  lemma TickFlushes(c: Config, s: State, ok: bool)
    requires s.worker.Selecting? && s.batch != []
    ensures CanRun(c, s, [FlushTick, WriteReturns(ok)])
    ensures var s' := Run(c, s, [FlushTick, WriteReturns(ok)]);
      && s'.ops == s.ops + [Write(s.batch, ok)] && Written(s'.ops) == Written(s.ops) + s.batch
      && s'.batch == [] && s'.worker.Selecting? && s'.ch == s.ch && s'.accepted == s.accepted
  {
    var s1 := Apply(c, s, FlushTick);
    WrittenAppend(s.ops, Write(s.batch, ok));
    var acts := RunOne(c, s1, WriteReturns(ok), []);
    acts := RunOne(c, s, FlushTick, acts);
    assert acts == [FlushTick, WriteReturns(ok)];
  }

  /** A write begins when the ticker or the end of the drain finds entries in the batch, or a receive fills it, and only then. */
  lemma WriteBeginsIff(c: Config, s: State, a: Action)
    requires Inv(c, s) && Enabled(s, a) && !s.worker.Writing?
    ensures Apply(c, s, a).worker.Writing? <==>
      || (a.FlushTick? && s.batch != []) || (a.EmptyRead? && s.batch != [])
      || (a.Receive? && |s.batch| + 1 == c.batchSize)
  {
  }

  /** A prune that the ticker starts reaches the storage with its threshold. */
  lemma TickPrunes(c: Config, s: State, threshold: int, ok: bool)
    requires s.pruner.Sleeping?
    ensures CanRun(c, s, [PruneTick, PruneReturns(threshold, ok)])
    ensures var s' := Run(c, s, [PruneTick, PruneReturns(threshold, ok)]);
      s'.ops == s.ops + [Prune(threshold, ok)] && s'.pruner.Sleeping?
  {
    var s1 := Apply(c, s, PruneTick);
    var acts := RunOne(c, s1, PruneReturns(threshold, ok), []);
    acts := RunOne(c, s, PruneTick, acts);
    assert acts == [PruneTick, PruneReturns(threshold, ok)];
  }

  /** The worker's steps while nobody has called `Close`. */
  predicate Selects(a: Action) { a.Receive? || a.FlushTick? || a.WriteReturns? }

  function Unwritten(s: State): nat {
    3 * |s.ch| + if s.worker.Writing? then 1 else if s.batch != [] then 2 else 0
  }

  function NextStep(s: State): Action {
    if s.worker.Writing? then WriteReturns(true) else if s.ch != [] then Receive else FlushTick
  }

  lemma SelectStep(c: Config, s: State)
    requires Inv(c, s) && !s.done && Unwritten(s) > 0
    ensures var a := NextStep(s);
      && Selects(a) && Enabled(s, a)
      && var s' := Apply(c, s, a);
        Inv(c, s') && s'.accepted == s.accepted && s'.inflight == s.inflight && !s'.done && Unwritten(s') < Unwritten(s)
  {
    InvStep(c, s, NextStep(s));
  }

  /**
    From every state before the end of `Close`, the worker by itself can hand over everything that has been
    accepted: its receives, its ticks and its writes are enough.
  */
  lemma {:induction false} WorkerCatchesUp(c: Config, s: State) returns (acts: seq<Action>)
    requires Inv(c, s) && !s.done
    ensures CanRun(c, s, acts) && forall i :: 0 <= i < |acts| ==> Selects(acts[i])
    ensures var s' := Run(c, s, acts);
      && Inv(c, s') && s'.accepted == s.accepted && s'.inflight == s.inflight
      && Written(s'.ops) == s.accepted && s'.batch == [] && s'.ch == [] && s'.worker.Selecting?
    decreases Unwritten(s)
  {
    acts := [];
    if Unwritten(s) > 0 {
      SelectStep(c, s);
      acts := WorkerCatchesUp(c, Apply(c, s, NextStep(s)));
      acts := RunOne(c, s, NextStep(s), acts);
    } else {
      NothingUnwritten(c, s);
    }
  }

  lemma NothingUnwritten(c: Config, s: State)
    requires Conserved(s) && Phased(s) && !s.done && Unwritten(s) == 0
    ensures Written(s.ops) == s.accepted && s.batch == [] && s.ch == [] && s.worker.Selecting?
  {
    assert Written(s.ops) + [] + [] == Written(s.ops);
  }

  // ---------------------------------------------------------------- what closing loses

  /** The steps of the worker and the pruner that lead to their exit. */
  predicate Internal(a: Action) {
    a.Receive? || a.EmptyRead? || a.WriteReturns? || a.SeeDone? || a.PruneReturns? || a.PrunerSeesDone?
  }

  /** From `s` to `s'` only the worker and the pruner moved. */
  ghost predicate OnlyWorkersMoved(s: State, s': State) {
    && s'.inflight == s.inflight && s'.closer == s.closer && s'.closedAt == s.closedAt && s'.done == s.done
    && s'.accepted == s.accepted
  }

  /** A draining worker left to itself reaches its exit, and the channel is empty then. */
  lemma {:induction false} DrainRun(c: Config, s: State) returns (acts: seq<Action>)
    requires Inv(c, s) && Leaving(s) && (s.emptyReadAt.Some? ==> s.ch == [])
    ensures CanRun(c, s, acts) && forall i :: 0 <= i < |acts| ==> Internal(acts[i])
    ensures var s' := Run(c, s, acts);
      s'.worker.WorkerExited? && s'.ch == [] && s'.pruner == s.pruner && OnlyWorkersMoved(s, s')
    decreases Remaining(s)
  {
    acts := [];
    if !s.worker.WorkerExited? {
      var a := if s.worker.Writing? then WriteReturns(true) else if s.ch != [] then Receive else EmptyRead;
      InvStep(c, s, a);
      DrainStep(c, s, a);
      acts := DrainRun(c, Apply(c, s, a));
      acts := RunOne(c, s, a, acts);
    }
  }

  lemma SelectToDrain(c: Config, s: State) returns (acts: seq<Action>)
    requires Inv(c, s) && s.done && s.worker.Selecting?
    ensures CanRun(c, s, acts) && forall i :: 0 <= i < |acts| ==> Internal(acts[i])
    ensures var s' := Run(c, s, acts);
      Inv(c, s') && s'.worker.Draining? && s'.pruner == s.pruner && s'.ch == s.ch && OnlyWorkersMoved(s, s')
  {
    InvStep(c, s, SeeDone);
    acts := RunOne(c, s, SeeDone, []);
  }

  lemma ToDrain(c: Config, s: State) returns (acts: seq<Action>)
    requires Inv(c, s) && s.done && !Leaving(s)
    ensures CanRun(c, s, acts) && forall i :: 0 <= i < |acts| ==> Internal(acts[i])
    ensures var s' := Run(c, s, acts);
      Inv(c, s') && s'.worker.Draining? && s'.pruner == s.pruner && s'.ch == s.ch && OnlyWorkersMoved(s, s')
  {
    if s.worker.Writing? {
      var s1 := Apply(c, s, WriteReturns(true));
      InvStep(c, s, WriteReturns(true));
      acts := SelectToDrain(c, s1);
      acts := RunOne(c, s, WriteReturns(true), acts);
    } else {
      acts := SelectToDrain(c, s);
    }
  }

  lemma PrunerRun(c: Config, s: State) returns (acts: seq<Action>)
    requires s.done
    ensures CanRun(c, s, acts) && forall i :: 0 <= i < |acts| ==> Internal(acts[i])
    ensures var s' := Run(c, s, acts);
      s'.pruner.PrunerExited? && s'.worker == s.worker && s'.ch == s.ch && OnlyWorkersMoved(s, s')
  {
    acts := [];
    if s.pruner.Pruning? {
      var s1 := Apply(c, s, PruneReturns(0, false));
      acts := RunOne(c, s1, PrunerSeesDone, []);
      acts := RunOne(c, s, PruneReturns(0, false), acts);
    } else if s.pruner.Sleeping? {
      acts := RunOne(c, s, PrunerSeesDone, []);
    }
  }

  /** Once `done` is closed the worker and the pruner can finish without anybody else. */
  lemma WorkersFinish(c: Config, s: State) returns (acts: seq<Action>)
    requires Inv(c, s) && s.done && (s.emptyReadAt.Some? ==> s.ch == [])
    ensures CanRun(c, s, acts) && forall i :: 0 <= i < |acts| ==> Internal(acts[i])
    ensures var s' := Run(c, s, acts);
      s'.worker.WorkerExited? && s'.pruner.PrunerExited? && s'.ch == [] && OnlyWorkersMoved(s, s')
  {
    acts := [];
    if !Leaving(s) {
      acts := ToDrain(c, s);
    }
    var s1 := Run(c, s, acts);
    var more := DrainRun(c, s1);
    RunConcat(c, s, acts, more);
    acts := acts + more;
    more := PrunerRun(c, Run(c, s, acts));
    RunConcat(c, s, acts, more);
    acts := acts + more;
  }

  /** The flag is set and nobody stands between a check and a send. */
  ghost predicate Sealed(s: State) {
    s.closedAt.Some? && s.inflight == map[] && (s.emptyReadAt.Some? ==> s.ch == [])
  }

  lemma {:induction false} SealedRun(c: Config, s: State, acts: seq<Action>)
    requires Inv(c, s) && Sealed(s) && CanRun(c, s, acts)
    ensures Inv(c, Run(c, s, acts)) && Sealed(Run(c, s, acts))
    decreases |acts|
  {
    if acts != [] {
      InvStep(c, s, acts[0]);
      SealedRun(c, Apply(c, s, acts[0]), acts[1..]);
    }
  }

  /** However a run goes on from `s`, the channel is empty when the worker has exited. */
  ghost predicate NeverStrands(c: Config, s: State) {
    forall acts :: CanRun(c, s, acts) && Run(c, s, acts).worker.WorkerExited? ==> Run(c, s, acts).ch == []
  }

  /** However a run goes on from `s`, if `Close` returns nil every accepted entry has been handed to the storage. */
  ghost predicate NilMeansWritten(c: Config, s: State) {
    forall acts :: CanRun(c, s, acts) && Run(c, s, acts).closer.ReturnedNil? ==> AllWritten(Run(c, s, acts))
  }

  ghost predicate AllWritten(s: State) { Written(s.ops) == s.accepted }

  /** With a call past its check, `Close` can return nil before that call sends. */
  lemma StrandingRun(c: Config, s: State, p: nat) returns (acts: seq<Action>)
    requires Inv(c, s) && s.closer.NotClosing? && p in s.inflight
    ensures CanRun(c, Apply(c, s, SetClosed), acts)
    ensures var s' := Run(c, Apply(c, s, SetClosed), acts);
      s'.worker.WorkerExited? && s'.closer.ReturnedNil? && s'.ch != [] && !AllWritten(s')
  {
    var s1 := Apply(c, s, SetClosed);
    InvStep(c, s, SetClosed);
    var s2 := Apply(c, s1, CloseDone);
    InvStep(c, s1, CloseDone);
    acts := WorkersFinish(c, s2);
    var s3 := Run(c, s2, acts);
    InvRun(c, s2, acts);
    var last := LateSend(c, s3, p);
    RunConcat(c, s2, acts, last);
    acts := RunOne(c, s1, CloseDone, acts + last);
  }

  /** A send after the workers' exit is accepted, and stays in the channel. */
  lemma LateOffer(c: Config, s: State, p: nat)
    requires c.Valid() && Written(s.ops) == s.accepted && s.ch == [] && p in s.inflight
    ensures var s' := Apply(c, s, Offer(p)); s'.ch != [] && !AllWritten(s')
  {
    assert |Apply(c, s, Offer(p)).accepted| == |s.accepted| + 1;
  }

  lemma LateSend(c: Config, s: State, p: nat) returns (acts: seq<Action>)
    requires Inv(c, s) && s.closer.Waiting? && s.worker.WorkerExited? && s.pruner.PrunerExited? && s.ch == [] && p in s.inflight
    ensures CanRun(c, s, acts)
    ensures var s' := Run(c, s, acts); s'.worker.WorkerExited? && s'.closer.ReturnedNil? && s'.ch != [] && !AllWritten(s')
  {
    var s1 := Apply(c, s, CloseReturnsNil);
    ExitedWroteAll(c, s);
    LateOffer(c, s1, p);
    acts := RunOne(c, s1, Offer(p), []);
    acts := RunOne(c, s, CloseReturnsNil, acts);
  }

  lemma ExitedWroteAll(c: Config, s: State)
    requires Conserved(s) && Bounded(c, s) && s.worker.WorkerExited? && s.ch == []
    ensures AllWritten(s)
  {
    assert Written(s.ops) + [] + [] == Written(s.ops);
  }

  /**
    From every reachable state in which `Close` is called: whatever happens afterwards, no accepted entry is
    left behind if and only if no call of `Enqueue` stands between its closed check and its send at the
    moment the flag is set. The same condition is exact for what a nil from `Close` promises.
  */
  lemma CloseLosesNothingIff(c: Config, s: State)
    requires Inv(c, s) && s.closer.NotClosing?
    ensures NeverStrands(c, Apply(c, s, SetClosed)) <==> s.inflight == map[]
    ensures NilMeansWritten(c, Apply(c, s, SetClosed)) <==> s.inflight == map[]
  {
    var s1 := Apply(c, s, SetClosed);
    InvStep(c, s, SetClosed);
    if s.inflight == map[] {
      forall acts | CanRun(c, s1, acts)
        ensures Run(c, s1, acts).worker.WorkerExited? ==> Run(c, s1, acts).ch == [] && AllWritten(Run(c, s1, acts))
        ensures Run(c, s1, acts).closer.ReturnedNil? ==> AllWritten(Run(c, s1, acts))
      {
        SealedRun(c, s1, acts);
        SealedLeavesNothing(c, Run(c, s1, acts));
      }
    } else {
      var p :| p in s.inflight;
      var acts := StrandingRun(c, s, p);
      assert !NeverStrands(c, s1) && !NilMeansWritten(c, s1);
    }
  }

  lemma SealedLeavesNothing(c: Config, s: State)
    requires Conserved(s) && Bounded(c, s) && Phased(s) && Sealed(s)
    ensures s.worker.WorkerExited? ==> s.ch == [] && AllWritten(s)
    ensures s.closer.ReturnedNil? ==> AllWritten(s)
  {
    assert Written(s.ops) + [] + [] == Written(s.ops);
  }

  // ---------------------------------------------------------------- the two kinds of nil

  /**
    A nil from the call of `Close` that set the flag means that both workers are gone and the batch is
    empty. A repeated call can return nil in every state in which the flag is set, and tells nothing: it
    waits for nobody and changes nothing.
  */
  lemma WhatNilMeans(c: Config, acts: seq<Action>)
    requires c.Valid() && CanRun(c, Init, acts)
    ensures var s := Run(c, Init, acts);
      && (s.closer.ReturnedNil? ==> s.worker.WorkerExited? && s.pruner.PrunerExited? && s.batch == [])
      && (Enabled(s, CloseAgain) <==> s.closedAt.Some?)
      && (Enabled(s, CloseAgain) ==> Apply(c, s, CloseAgain) == s.(clock := s.clock + 1))
  {
    InitInv(c);
    InvRun(c, Init, acts);
  }

  /** So from every reachable state in which nobody has called `Close` yet, a second nil can come while all is still pending. */
  lemma SecondCloseDoesNotWait(c: Config, s: State)
    requires Inv(c, s) && s.closer.NotClosing?
    ensures var acts := [SetClosed, CloseAgain];
      CanRun(c, s, acts) && var s' := Run(c, s, acts);
      s'.ch == s.ch && s'.batch == s.batch && s'.worker == s.worker && s'.ops == s.ops && !s'.closer.ReturnedNil?
  {
    var s1 := Apply(c, s, SetClosed);
    var acts := RunOne(c, s1, CloseAgain, []);
    acts := RunOne(c, s, SetClosed, acts);
    assert acts == [SetClosed, CloseAgain];
  }
}
