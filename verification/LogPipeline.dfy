/**
  The asynchronous log writer as a state machine: any number of producers inside `Enqueue`, the batch
  worker, the pruner and the first caller of `Close`, interleaved step by step. A producer that has
  passed the closed check and not yet offered its entry is a call in `inflight`: that gap is where an
  accepted entry can be stranded.
*/
module LogPipeline {
  import opened LogEntries
  import opened Sequences

  /** Both sizes after `NewAsyncLogWriter` has replaced non-positive values. */
  datatype Config = Config(bufferSize: int, batchSize: int) {
    ghost predicate Valid() { bufferSize >= 1 && batchSize >= 1 }
  }

  /** A call of `Enqueue` between its closed check and its send. */
  datatype Call = Call(entry: LogEntry, checkedAt: nat)

  /** An accepted entry: who sent it, and the logical times of the closed check and of the send. */
  datatype Send = Send(producer: nat, entry: LogEntry, checkedAt: nat, sentAt: nat)

  datatype AfterWrite = BackToSelect | BackToDrain | ThenExit

  /** `Writing(k)` is the worker inside `flush` with a non-empty batch; `k` is where it continues. */
  datatype Worker = Selecting | Draining | Writing(after: AfterWrite) | WorkerExited

  datatype Pruner = Sleeping | Pruning | PrunerExited

  datatype Closer = NotClosing | FlagSet | Waiting | ReturnedNil | ReturnedErr

  /** What reached the storage, in order; `ok` is false when the call returned an error. */
  datatype StorageOp = Write(batch: seq<Send>, ok: bool) | Prune(threshold: int, ok: bool)

  datatype State = State(
    ch: seq<Send>,
    inflight: map<nat, Call>,
    batch: seq<Send>,
    worker: Worker,
    pruner: Pruner,
    closer: Closer,
    closedAt: Option<nat>,     // set together with the `closed` flag
    done: bool,                // the `done` channel is closed
    ops: seq<StorageOp>,
    accepted: seq<Send>,       // every send for which Enqueue returned true
    emptyReadAt: Option<nat>,  // the worker's last read, which found the channel empty
    clock: nat)

  const Init := State([], map[], [], Selecting, Sleeping, NotClosing, None, false, [], [], None, 0)

  datatype Action =
    | Check(producer: nat, entry: LogEntry)
    | Offer(producer: nat)
    | Receive
    | FlushTick
    | SeeDone
    | EmptyRead
    | WriteReturns(ok: bool)
    | PruneTick
    | PruneReturns(threshold: int, ok: bool)
    | PrunerSeesDone
    | SetClosed
    | CloseDone
    | CloseReturnsNil
    | CloseTimesOut
    | CloseAgain

  predicate Enabled(s: State, a: Action) {
    match a
    case Check(p, _) => p !in s.inflight
    case Offer(p) => p in s.inflight
    case Receive => (s.worker.Selecting? || s.worker.Draining?) && s.ch != []
    case FlushTick => s.worker.Selecting?
    case SeeDone => s.worker.Selecting? && s.done
    case EmptyRead => s.worker.Draining? && s.ch == []
    case WriteReturns(_) => s.worker.Writing?
    case PruneTick => s.pruner.Sleeping?
    case PruneReturns(_, _) => s.pruner.Pruning?
    case PrunerSeesDone => s.pruner.Sleeping? && s.done
    case SetClosed => s.closer.NotClosing?
    case CloseDone => s.closer.FlagSet?
    case CloseReturnsNil => s.closer.Waiting? && s.worker.WorkerExited? && s.pruner.PrunerExited?
    case CloseTimesOut => s.closer.Waiting?
    case CloseAgain => s.closedAt.Some?
  }

  function Resume(k: AfterWrite): Worker {
    match k
    case BackToSelect => Selecting
    case BackToDrain => Draining
    case ThenExit => WorkerExited
  }

  /** The effect of one step, without the clock. The log channel itself is never closed by the program. */
  function Effect(c: Config, s: State, a: Action): State
    requires Enabled(s, a)
  {
    match a
    case Check(p, e) =>
      if s.closedAt.Some? then s else s.(inflight := s.inflight[p := Call(e, s.clock)])
    case Offer(p) =>
      var call := s.inflight[p];
      var rest := s.(inflight := s.inflight - {p});
      if |s.ch| < c.bufferSize then
        var sent := Send(p, call.entry, call.checkedAt, s.clock);
        rest.(ch := s.ch + [sent], accepted := s.accepted + [sent])
      else
        rest
    case Receive =>
      var b := s.batch + [s.ch[0]];
      var back := if s.worker.Selecting? then BackToSelect else BackToDrain;
      s.(ch := s.ch[1..], batch := b, worker := if |b| >= c.batchSize then Writing(back) else s.worker)
    case FlushTick =>
      if s.batch == [] then s else s.(worker := Writing(BackToSelect))
    case SeeDone =>
      s.(worker := Draining)
    case EmptyRead =>
      s.(emptyReadAt := Some(s.clock), worker := if s.batch == [] then WorkerExited else Writing(ThenExit))
    case WriteReturns(ok) =>
      s.(ops := s.ops + [Write(s.batch, ok)], batch := [], worker := Resume(s.worker.after))
    case PruneTick => s.(pruner := Pruning)
    case PruneReturns(t, ok) => s.(ops := s.ops + [Prune(t, ok)], pruner := Sleeping)
    case PrunerSeesDone => s.(pruner := PrunerExited)
    case SetClosed => s.(closedAt := Some(s.clock), closer := FlagSet)
    case CloseDone => s.(done := true, closer := Waiting)
    case CloseReturnsNil => s.(closer := ReturnedNil)
    case CloseTimesOut => s.(closer := ReturnedErr)
    case CloseAgain => s
  }

  function Apply(c: Config, s: State, a: Action): State
    requires Enabled(s, a)
  {
    Effect(c, s, a).(clock := s.clock + 1)
  }

  // ---------------------------------------------------------------- runs

  ghost predicate CanRun(c: Config, s: State, acts: seq<Action>)
    decreases |acts|
  {
    acts == [] || (Enabled(s, acts[0]) && CanRun(c, Apply(c, s, acts[0]), acts[1..]))
  }

  ghost function Run(c: Config, s: State, acts: seq<Action>): State
    requires CanRun(c, s, acts)
    decreases |acts|
  {
    if acts == [] then s else Run(c, Apply(c, s, acts[0]), acts[1..])
  }

  lemma {:induction false} RunSnoc(c: Config, s: State, acts: seq<Action>, a: Action)
    requires CanRun(c, s, acts) && Enabled(Run(c, s, acts), a)
    ensures CanRun(c, s, acts + [a]) && Run(c, s, acts + [a]) == Apply(c, Run(c, s, acts), a)
    decreases |acts|
  {
    if acts == [] {
      assert ([] + [a])[1..] == [];
    } else {
      RunSnoc(c, Apply(c, s, acts[0]), acts[1..], a);
      assert (acts + [a])[1..] == acts[1..] + [a];
    }
  }

  lemma {:induction false} RunConcat(c: Config, s: State, a: seq<Action>, b: seq<Action>)
    requires CanRun(c, s, a) && CanRun(c, Run(c, s, a), b)
    ensures CanRun(c, s, a + b) && Run(c, s, a + b) == Run(c, Run(c, s, a), b)
    decreases |a|
  {
    if a == [] {
      assert a + b == b;
    } else {
      RunConcat(c, Apply(c, s, a[0]), a[1..], b);
      assert (a + b)[1..] == a[1..] + b;
    }
  }

  // ---------------------------------------------------------------- what was handed to the storage

  function Written(ops: seq<StorageOp>): seq<Send> {
    if ops == [] then [] else
      var last := ops[|ops| - 1];
      Written(ops[..|ops| - 1]) + if last.Write? then last.batch else []
  }

  function Committed(ops: seq<StorageOp>): seq<Send> {
    if ops == [] then [] else
      var last := ops[|ops| - 1];
      Committed(ops[..|ops| - 1]) + if last.Write? && last.ok then last.batch else []
  }

  lemma WrittenAppend(ops: seq<StorageOp>, op: StorageOp)
    ensures Written(ops + [op]) == Written(ops) + if op.Write? then op.batch else []
  {
    assert (ops + [op])[..|ops|] == ops;
  }

  /** Sends in strictly increasing time order, hence without duplicates. */
  ghost predicate InSendOrder(xs: seq<Send>) {
    forall i, j :: 0 <= i < j < |xs| ==> xs[i].sentAt < xs[j].sentAt
  }

  // ---------------------------------------------------------------- the inductive invariant

  /** Nothing is lost, repeated or reordered between a successful send and the storage. */
  ghost predicate Conserved(s: State) {
    && SumsUp(s)
    && InSendOrder(s.accepted)
  }

  ghost predicate Bounded(c: Config, s: State) {
    && |s.ch| <= c.bufferSize
    && |s.batch| <= c.batchSize
    && (s.worker.Selecting? || s.worker.Draining? ==> |s.batch| < c.batchSize)
    && (s.worker.Writing? ==> 1 <= |s.batch|)
    && (s.worker.WorkerExited? ==> s.batch == [])
    && forall i :: 0 <= i < |s.ops| && s.ops[i].Write? ==> 1 <= |s.ops[i].batch| <= c.batchSize
  }

  /** The worker leaves its select only after `done`, and `done` is closed only after the flag is set. */
  ghost predicate Phased(s: State) {
    && (s.closer.NotClosing? <==> s.closedAt.None?)
    && (s.done <==> !(s.closer.NotClosing? || s.closer.FlagSet?))
    && (s.worker.Draining? || s.worker.WorkerExited? ==> s.done)
    && (s.worker.Writing? && !s.worker.after.BackToSelect? ==> s.done)
    && (s.pruner.PrunerExited? ==> s.done)
    && (s.emptyReadAt.Some? <==> s.worker.WorkerExited? || s.worker == Writing(ThenExit))
    && (s.closer.ReturnedNil? ==> s.worker.WorkerExited? && s.pruner.PrunerExited?)
  }

  ghost predicate Timed(s: State) {
    && (s.closedAt.Some? ==> s.closedAt.value < s.clock)
    && (s.emptyReadAt.Some? ==> s.closedAt.Some? && s.closedAt.value < s.emptyReadAt.value < s.clock)
    && (forall p :: p in s.inflight ==> CheckedBefore(s, s.inflight[p].checkedAt))
    && (forall i :: 0 <= i < |s.accepted| ==>
         s.accepted[i].checkedAt < s.accepted[i].sentAt < s.clock && CheckedBefore(s, s.accepted[i].checkedAt))
  }

  ghost predicate CheckedBefore(s: State, t: nat) {
    t < s.clock && (s.closedAt.Some? ==> t < s.closedAt.value)
  }

  /** After the empty read, what is in the channel is what was sent since. */
  ghost predicate Split(s: State) {
    s.emptyReadAt.Some? ==>
      && (forall i :: 0 <= i < |s.ch| ==> s.emptyReadAt.value < s.ch[i].sentAt)
      && (forall i :: 0 <= i < |s.accepted| - |s.ch| ==> s.accepted[i].sentAt < s.emptyReadAt.value)
  }

  ghost predicate Inv(c: Config, s: State) {
    && c.Valid() && Conserved(s) && Bounded(c, s) && Phased(s) && Timed(s) && Split(s)
  }

  lemma InitInv(c: Config)
    requires c.Valid()
    ensures Inv(c, Init)
  {
  }

  /** What moves from the front of the channel to the end of the batch stays in its place in the whole. */
  lemma Handover<T>(w: seq<T>, b: seq<T>, ch: seq<T>)
    requires ch != []
    ensures w + (b + [ch[0]]) + ch[1..] == w + b + ch
  {
    assert ch == [ch[0]] + ch[1..];
  }

  lemma HandedOver(ops: seq<StorageOp>, batch: seq<Send>, ch: seq<Send>, ok: bool)
    ensures Written(ops + [Write(batch, ok)]) + [] + ch == Written(ops) + batch + ch
  {
    WrittenAppend(ops, Write(batch, ok));
  }

  lemma PrunedKeeps(ops: seq<StorageOp>, threshold: int, ok: bool)
    ensures Written(ops + [Prune(threshold, ok)]) == Written(ops)
  {
    WrittenAppend(ops, Prune(threshold, ok));
  }

  ghost predicate SumsUp(s: State) { Written(s.ops) + s.batch + s.ch == s.accepted }

  lemma SumOffer(c: Config, s: State, p: nat)
    requires SumsUp(s) && p in s.inflight
    ensures SumsUp(Apply(c, s, Offer(p)))
  {
    var sent := Send(p, s.inflight[p].entry, s.inflight[p].checkedAt, s.clock);
    Associate(Written(s.ops) + s.batch, s.ch, [sent]);
  }

  lemma SumStep(c: Config, s: State, a: Action)
    requires SumsUp(s) && Enabled(s, a)
    ensures SumsUp(Apply(c, s, a))
  {
    match a
    case Offer(p) => SumOffer(c, s, p);
    case Receive => Handover(Written(s.ops), s.batch, s.ch);
    case WriteReturns(ok) => HandedOver(s.ops, s.batch, s.ch, ok);
    case PruneReturns(t, ok) => PrunedKeeps(s.ops, t, ok);
    case _ =>
  }

  lemma OrderStep(c: Config, s: State, a: Action)
    requires InSendOrder(s.accepted) && Enabled(s, a)
    requires forall i :: 0 <= i < |s.accepted| ==> s.accepted[i].sentAt < s.clock
    ensures InSendOrder(Apply(c, s, a).accepted)
  {
  }

  lemma BoundedStep(c: Config, s: State, a: Action)
    requires c.Valid() && Bounded(c, s) && Enabled(s, a)
    ensures Bounded(c, Apply(c, s, a))
  {
  }

  lemma PhasedStep(c: Config, s: State, a: Action)
    requires Phased(s) && Enabled(s, a)
    ensures Phased(Apply(c, s, a))
  {
  }

  lemma TimedStep(c: Config, s: State, a: Action)
    requires Phased(s) && Timed(s) && Enabled(s, a)
    ensures Timed(Apply(c, s, a))
  {
  }

  lemma SplitStep(c: Config, s: State, a: Action)
    requires Conserved(s) && Phased(s) && Timed(s) && Split(s) && Enabled(s, a)
    ensures Split(Apply(c, s, a))
  {
  }

  lemma InvStep(c: Config, s: State, a: Action)
    requires Inv(c, s) && Enabled(s, a)
    ensures Inv(c, Apply(c, s, a))
  {
    SumStep(c, s, a);
    OrderStep(c, s, a);
    BoundedStep(c, s, a);
    PhasedStep(c, s, a);
    TimedStep(c, s, a);
    SplitStep(c, s, a);
  }

  lemma {:induction false} InvRun(c: Config, s: State, acts: seq<Action>)
    requires Inv(c, s) && CanRun(c, s, acts)
    ensures Inv(c, Run(c, s, acts))
    decreases |acts|
  {
    if acts != [] {
      InvStep(c, s, acts[0]);
      InvRun(c, Apply(c, s, acts[0]), acts[1..]);
    }
  }
}
