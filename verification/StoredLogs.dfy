/** From an accepted `Enqueue` to a row of the table: the log pipeline and the store put together. */
module StoredLogs {
  import opened LogEntries
  import P = LogPipeline
  import R = LogPipelineResults
  import S = ServerShutdown
  import T = LogStore
  import W = AsyncLogWriting
  import Q = LogQuery
  import A = LogQueryResults

  /** The records of a batch; `now` is the clock at the insert of an entry. */
  function Records(batch: seq<P.Send>, now: P.Send -> int): (rs: seq<T.Record>)
    ensures |rs| == |batch|
  {
    seq(|batch|, i requires 0 <= i < |batch| => T.RecordOf(batch[i].entry, now(batch[i])))
  }

  function StoreOp(op: P.StorageOp, now: P.Send -> int): T.Op {
    match op
    case Write(batch, ok) => T.Insert(Records(batch, now), ok)
    case Prune(threshold, ok) => T.Prune(threshold, ok)
  }

  /** The table after the storage calls of a run. */
  function TableAfter(ops: seq<P.StorageOp>, now: P.Send -> int): T.Table {
    if ops == [] then T.Table([], 1)
    else T.Do(TableAfter(ops[..|ops| - 1], now), StoreOp(ops[|ops| - 1], now))
  }

  function Contents(rows: seq<T.Row>): (rs: seq<T.Record>)
    ensures |rs| == |rows|
  {
    seq(|rows|, i requires 0 <= i < |rows| => rows[i].rec)
  }

  lemma RecordsConcat(a: seq<P.Send>, b: seq<P.Send>, now: P.Send -> int)
    ensures Records(a + b, now) == Records(a, now) + Records(b, now)
  {
  }

  lemma ContentsAppend(rows: seq<T.Row>, recs: seq<T.Record>, next: nat)
    ensures Contents(rows + T.Numbered(recs, next)) == Contents(rows) + recs
  {
  }

  // ---------------------------------------------------------------- the same table as that of the store's own runs

  function StoreOps(ops: seq<P.StorageOp>, now: P.Send -> int): (r: seq<T.Op>)
    ensures |r| == |ops|
  {
    seq(|ops|, i requires 0 <= i < |ops| => StoreOp(ops[i], now))
  }

  lemma {:induction false} DoAllIsTableAfter(ops: seq<P.StorageOp>, now: P.Send -> int)
    ensures T.DoAll(T.Table([], 1), StoreOps(ops, now)) == TableAfter(ops, now)
  {
    if ops != [] {
      var n := |ops| - 1;
      DoAllIsTableAfter(ops[..n], now);
      assert StoreOps(ops, now) == StoreOps(ops[..n], now) + [StoreOp(ops[n], now)];
      T.DoAllSnoc(T.Table([], 1), StoreOps(ops[..n], now), StoreOp(ops[n], now));
    }
  }

  /** The rows are those that the storage calls of the pipeline lead one to expect, prunes and failures included. */
  lemma TableIsExpected(ops: seq<P.StorageOp>, now: P.Send -> int)
    ensures TableAfter(ops, now).rows == T.Expected(1, StoreOps(ops, now))
  {
    DoAllIsTableAfter(ops, now);
    T.TableIsCommittedMinusPruned(T.Table([], 1), StoreOps(ops, now));
    assert T.Surviving([], StoreOps(ops, now)) == [];
  }

  // ---------------------------------------------------------------- which entries are rows

  /** `x` was committed by a batch, and no prune that succeeded later reaches its time. */
  ghost predicate IsStored(x: P.Send, ops: seq<P.StorageOp>, now: P.Send -> int) {
    exists i :: 0 <= i < |ops| && StoredBy(x, ops, i, now)
  }

  ghost predicate StoredBy(x: P.Send, ops: seq<P.StorageOp>, i: nat, now: P.Send -> int)
    requires i < |ops|
  {
    && ops[i].Write? && ops[i].ok && x in ops[i].batch
    && forall j :: i < j < |ops| && ops[j].Prune? && ops[j].ok ==> ops[j].threshold <= T.RecordOf(x.entry, now(x)).timestamp
  }

  /** The sends among `xs` that are stored, in order. */
  ghost function Stored(xs: seq<P.Send>, ops: seq<P.StorageOp>, now: P.Send -> int): seq<P.Send> {
    if xs == [] then [] else
      var n := |xs| - 1;
      Stored(xs[..n], ops, now) + if IsStored(xs[n], ops, now) then [xs[n]] else []
  }

  lemma {:induction false} StoredConcat(a: seq<P.Send>, b: seq<P.Send>, ops: seq<P.StorageOp>, now: P.Send -> int)
    ensures Stored(a + b, ops, now) == Stored(a, ops, now) + Stored(b, ops, now)
  {
    if b == [] {
      assert a + b == a;
    } else {
      var n := |b| - 1;
      assert (a + b)[..|a| + n] == a + b[..n];
      StoredConcat(a, b[..n], ops, now);
    }
  }

  lemma {:induction false} StoredSame(xs: seq<P.Send>, ops: seq<P.StorageOp>, ops': seq<P.StorageOp>, now: P.Send -> int)
    requires forall x :: x in xs ==> (IsStored(x, ops, now) <==> IsStored(x, ops', now))
    ensures Stored(xs, ops, now) == Stored(xs, ops', now)
  {
    if xs != [] {
      StoredSame(xs[..|xs| - 1], ops, ops', now);
    }
  }

  lemma {:induction false} StoredAll(xs: seq<P.Send>, ops: seq<P.StorageOp>, now: P.Send -> int)
    requires forall x :: x in xs ==> IsStored(x, ops, now)
    ensures Stored(xs, ops, now) == xs
  {
    if xs != [] {
      StoredAll(xs[..|xs| - 1], ops, now);
      assert xs == xs[..|xs| - 1] + [xs[|xs| - 1]];
    }
  }

  lemma {:induction false} StoredNone(xs: seq<P.Send>, ops: seq<P.StorageOp>, now: P.Send -> int)
    requires forall x :: x in xs ==> !IsStored(x, ops, now)
    ensures Stored(xs, ops, now) == []
  {
    if xs != [] {
      StoredNone(xs[..|xs| - 1], ops, now);
    }
  }

  /** How one more storage call changes what is stored. */
  lemma StoredStep(x: P.Send, front: seq<P.StorageOp>, op: P.StorageOp, now: P.Send -> int)
    ensures IsStored(x, front + [op], now) <==>
      || (op.Write? && op.ok && x in op.batch)
      || (IsStored(x, front, now) && (op.Prune? && op.ok ==> op.threshold <= T.RecordOf(x.entry, now(x)).timestamp))
  {
    var ops := front + [op];
    var n := |front|;
    if op.Write? && op.ok && x in op.batch {
      assert StoredBy(x, ops, n, now);
    }
    if i :| 0 <= i < n && StoredBy(x, front, i, now) {
      if op.Prune? && op.ok ==> op.threshold <= T.RecordOf(x.entry, now(x)).timestamp {
        assert StoredBy(x, ops, i, now);
      }
    }
    if i :| 0 <= i < |ops| && StoredBy(x, ops, i, now) {
      if i < n {
        assert forall j :: i < j < n ==> ops[j] == front[j];
        assert StoredBy(x, front, i, now);
        assert ops[n] == op;
      }
    }
  }

  lemma {:induction false} StoredWritten(x: P.Send, ops: seq<P.StorageOp>, now: P.Send -> int)
    requires IsStored(x, ops, now)
    ensures x in P.Written(ops)
  {
    var n := |ops| - 1;
    assert ops == ops[..n] + [ops[n]];
    StoredStep(x, ops[..n], ops[n], now);
    if IsStored(x, ops[..n], now) {
      StoredWritten(x, ops[..n], now);
    }
  }

  /** A prune keeps, of the stored sends, those whose time it does not reach. */
  lemma {:induction false} YoungerStored(xs: seq<P.Send>, rows: seq<T.Row>, front: seq<P.StorageOp>, op: P.StorageOp, now: P.Send -> int)
    requires op.Prune? && op.ok
    requires Contents(rows) == Records(Stored(xs, front, now), now)
    ensures Contents(T.Younger(rows, op.threshold)) == Records(Stored(xs, front + [op], now), now)
  {
    if xs == [] {
      assert rows == [] by { assert |Contents(rows)| == 0; }
    } else {
      var n := |xs| - 1;
      StoredStep(xs[n], front, op, now);
      var kept := Stored(xs[..n], front, now);
      if IsStored(xs[n], front, now) {
        RecordsConcat(kept, [xs[n]], now);
        LastRow(rows, kept, xs[n], now);
        YoungerStored(xs[..n], rows[..|rows| - 1], front, op, now);
        YoungerLast(rows, op.threshold);
        RecordsConcat(Stored(xs[..n], front + [op], now), [xs[n]], now);
      } else {
        assert kept + [] == kept;
        YoungerStored(xs[..n], rows, front, op, now);
        var kept' := Stored(xs[..n], front + [op], now);
        assert kept' + [] == kept';
      }
    }
  }

  lemma LastRow(rows: seq<T.Row>, kept: seq<P.Send>, x: P.Send, now: P.Send -> int)
    requires Contents(rows) == Records(kept + [x], now)
    ensures rows != [] && rows[|rows| - 1].rec == T.RecordOf(x.entry, now(x))
    ensures Contents(rows[..|rows| - 1]) == Records(kept, now)
  {
    var n := |kept|;
    assert |Contents(rows)| == n + 1;
    assert Contents(rows)[n] == Records(kept + [x], now)[n];
    forall i | 0 <= i < n ensures Contents(rows[..n])[i] == Records(kept, now)[i] {
      assert Contents(rows)[i] == Records(kept + [x], now)[i];
    }
  }

  lemma YoungerLast(rows: seq<T.Row>, threshold: int)
    requires rows != []
    ensures var n := |rows| - 1;
      Contents(T.Younger(rows, threshold))
        == Contents(T.Younger(rows[..n], threshold)) + if rows[n].rec.timestamp < threshold then [] else [rows[n].rec]
  {
  }

  /**
    For every sequence of storage calls, prunes and failed calls included: the rows are, in order, the
    records of the written sends less the batches whose insert failed and less what a later successful
    prune cut.
  */
  lemma {:induction false} RowsAreStoredSends(ops: seq<P.StorageOp>, now: P.Send -> int)
    requires P.InSendOrder(P.Written(ops))
    ensures Contents(TableAfter(ops, now).rows) == Records(Stored(P.Written(ops), ops, now), now)
  {
    if ops != [] {
      var front, op := ops[..|ops| - 1], ops[|ops| - 1];
      assert ops == front + [op];
      var past, batch := P.Written(front), if op.Write? then op.batch else [];
      assert P.Written(ops) == past + batch;
      R.InOrderParts(past, batch);
      RowsAreStoredSends(front, now);
      StoredConcat(past, batch, ops, now);
      if op.Prune? {
        assert past + [] == past;
        PruneKeepsStored(front, op, now);
      } else {
        WriteAddsStored(front, op, now);
      }
    }
  }

  lemma PruneKeepsStored(front: seq<P.StorageOp>, op: P.StorageOp, now: P.Send -> int)
    requires op.Prune? && Contents(TableAfter(front, now).rows) == Records(Stored(P.Written(front), front, now), now)
    ensures Contents(T.Do(TableAfter(front, now), StoreOp(op, now)).rows) == Records(Stored(P.Written(front), front + [op], now), now)
  {
    if op.ok {
      YoungerStored(P.Written(front), TableAfter(front, now).rows, front, op, now);
    } else {
      forall x | x in P.Written(front) ensures IsStored(x, front, now) <==> IsStored(x, front + [op], now) {
        StoredStep(x, front, op, now);
      }
      StoredSame(P.Written(front), front, front + [op], now);
    }
  }

  lemma WriteAddsStored(front: seq<P.StorageOp>, op: P.StorageOp, now: P.Send -> int)
    requires op.Write? && Contents(TableAfter(front, now).rows) == Records(Stored(P.Written(front), front, now), now)
    requires forall x, y :: x in P.Written(front) && y in op.batch ==> x.sentAt < y.sentAt
    ensures Contents(T.Do(TableAfter(front, now), StoreOp(op, now)).rows)
      == Records(Stored(P.Written(front), front + [op], now) + Stored(op.batch, front + [op], now), now)
  {
    var past, ops := P.Written(front), front + [op];
    forall x | x in past ensures IsStored(x, front, now) <==> IsStored(x, ops, now) {
      StoredStep(x, front, op, now);
    }
    StoredSame(past, front, ops, now);
    forall x | x in op.batch ensures IsStored(x, ops, now) <==> op.ok {
      StoredStep(x, front, op, now);
      if IsStored(x, front, now) {
        StoredWritten(x, front, now);
      }
    }
    if op.ok {
      StoredAll(op.batch, ops, now);
      RecordsConcat(Stored(past, ops, now), op.batch, now);
      ContentsAppend(TableAfter(front, now).rows, Records(op.batch, now), TableAfter(front, now).next);
    } else {
      StoredNone(op.batch, ops, now);
      assert Stored(past, ops, now) + [] == Stored(past, ops, now);
    }
  }

  /** At every moment of every run of the pipeline the table is what the accepted sends, so far, make of it. */
  lemma TableOfRun(c: P.Config, acts: seq<P.Action>, now: P.Send -> int)
    requires c.Valid() && P.CanRun(c, P.Init, acts)
    ensures var s := P.Run(c, P.Init, acts);
      && Contents(TableAfter(s.ops, now).rows) == Records(Stored(P.Written(s.ops), s.ops, now), now)
      && P.Written(s.ops) <= s.accepted
  {
    P.InitInv(c);
    P.InvRun(c, P.Init, acts);
    var s := P.Run(c, P.Init, acts);
    WrittenIsPrefix(s);
    RowsAreStoredSends(s.ops, now);
  }

  lemma WrittenIsPrefix(s: P.State)
    requires P.Conserved(s)
    ensures P.Written(s.ops) <= s.accepted && P.InSendOrder(P.Written(s.ops))
  {
    var w := P.Written(s.ops);
    assert forall i :: 0 <= i < |w| ==> w[i] == s.accepted[i];
  }

  /**
    After a clean shutdown the table holds one row for each entry for which `Enqueue` returned true, in the
    order of the sends, less the batches whose insert failed and less what a later successful prune cut,
    and nothing else.
  */
  lemma AcceptedEntriesAreRows(c: P.Config, acts: seq<S.Action>, now: P.Send -> int)
    requires c.Valid() && S.CanRun(c, S.Init, acts)
    requires var s := S.Run(c, S.Init, acts); S.Cleanly(s) && s.harvestOver
    ensures var s := S.Run(c, S.Init, acts);
      Contents(TableAfter(s.w.ops, now).rows) == Records(Stored(s.w.accepted, s.w.ops, now), now)
  {
    S.CleanShutdown(c, acts);
    P.InitInv(c);
    S.InvRun(c, S.Init, acts);
    RowsAreStoredSends(S.Run(c, S.Init, acts).w.ops, now);
  }

  /** A sequence of stored sends shows in the rows one by one. */
  lemma RowOf(rows: seq<T.Row>, xs: seq<P.Send>, x: P.Send, now: P.Send -> int) returns (r: T.Row)
    requires Contents(rows) == Records(xs, now) && x in xs
    ensures r in rows && r.rec == T.RecordOf(x.entry, now(x))
  {
    var i :| 0 <= i < |xs| && xs[i] == x;
    assert |Contents(rows)| == |xs|;
    r := rows[i];
    assert Contents(rows)[i] == Records(xs, now)[i];
  }

  lemma {:induction false} StoredIsIn(xs: seq<P.Send>, ops: seq<P.StorageOp>, now: P.Send -> int, x: P.Send)
    ensures x in Stored(xs, ops, now) <==> x in xs && IsStored(x, ops, now)
  {
    if xs != [] {
      var n := |xs| - 1;
      StoredIsIn(xs[..n], ops, now, x);
      assert xs == xs[..n] + [xs[n]];
    }
  }

  /**
    From `Enqueue` to the answer of a query: after a clean shutdown, an accepted entry whose insert did not
    fail and that no later prune reached has a row, and for every filter and page size up to 1000 paging
    through the answer comes across that row if and only if the filter matches the entry's record.
  */
  lemma AcceptedIsFound(c: P.Config, acts: seq<S.Action>, now: P.Send -> int, x: P.Send, step: nat) returns (r: T.Row)
    requires c.Valid() && S.CanRun(c, S.Init, acts) && 1 <= step <= 1000
    requires var s := S.Run(c, S.Init, acts);
      S.Cleanly(s) && s.harvestOver && x in s.w.accepted && IsStored(x, s.w.ops, now)
    ensures r.rec == T.RecordOf(x.entry, now(x))
    ensures var rows := TableAfter(S.Run(c, S.Init, acts).w.ops, now).rows;
      r in rows && forall f :: A.OnSomePage(f, rows, step, r) <==> Q.Matches(f, r.rec)
  {
    var s := S.Run(c, S.Init, acts);
    AcceptedEntriesAreRows(c, acts, now);
    StoredIsIn(s.w.accepted, s.w.ops, now, x);
    var rows := TableAfter(s.w.ops, now).rows;
    r := RowOf(rows, Stored(s.w.accepted, s.w.ops, now), x, now);
    DoAllIsTableAfter(s.w.ops, now);
    forall f ensures A.OnSomePage(f, rows, step, r) <==> Q.Matches(f, r.rec) {
      A.FoundIff(f, StoreOps(s.w.ops, now), step, r);
    }
  }

  /**
    The ingest handler's defaults are the store's own: they change nothing of what is stored but the zero
    time, which only the handler replaces; given straight to `Enqueue` it is stored as the year 1.
  */
  lemma DefaultsAgree(e: LogEntry, received: int, now: int)
    requires received != 0
    ensures T.RecordOf(W.Defaulted(e, received), now)
         == T.RecordOf(e, now).(timestamp := if e.timestamp == ZERO_TIME then received else T.RecordOf(e, now).timestamp)
    ensures e.timestamp == ZERO_TIME ==> T.RecordOf(e, now).timestamp == ZERO_TIME
  {
    assert T.StoredLevel("INFO") == "INFO";
    assert T.StoredService("default") == "default";
  }
}
