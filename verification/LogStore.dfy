/** The log table: atomic batch inserts, pruning by age, counting. */
module LogStore {
  import opened LogEntries
  import opened Sequences
  import opened Text

  /** What an entry becomes in the table. Attributes are stored as JSON text, which is taken to be read back unchanged. */
  datatype Record = Record(timestamp: int, level: string, service: string, message: string, attributes: map<string, string>)

  datatype Row = Row(id: nat, rec: Record)

  function StoredLevel(level: string): string {
    var t := ToUpper(TrimSpace(level));
    if t == "" then "INFO" else t
  }

  function StoredService(service: string): string {
    var t := TrimSpace(service);
    if t == "" then "default" else t
  }

  function RecordOf(e: LogEntry, now: int): Record {
    Record(if e.timestamp == 0 then now else e.timestamp, StoredLevel(e.level), StoredService(e.service), e.message, e.attributes)
  }

  function RecordsOf(entries: seq<LogEntry>, now: nat -> int): (rs: seq<Record>)
    ensures |rs| == |entries|
  {
    seq(|entries|, i requires 0 <= i < |entries| => RecordOf(entries[i], now(i)))
  }

  /** Rows as inserted: ids are handed out in order and never used again. */
  function Numbered(recs: seq<Record>, next: nat): (rows: seq<Row>)
    ensures |rows| == |recs|
  {
    seq(|recs|, i requires 0 <= i < |recs| => Row(next + i, recs[i]))
  }

  datatype Table = Table(rows: seq<Row>, next: nat)

  datatype Op = Insert(recs: seq<Record>, ok: bool) | Prune(threshold: int, ok: bool)

  function Younger(rows: seq<Row>, threshold: int): (r: seq<Row>)
    ensures |r| <= |rows|
  {
    if rows == [] then [] else
      var n := |rows| - 1;
      Younger(rows[..n], threshold) + if rows[n].rec.timestamp < threshold then [] else [rows[n]]
  }

  function Do(t: Table, op: Op): Table {
    match op
    case Insert(recs, ok) => if ok then Table(t.rows + Numbered(recs, t.next), t.next + |recs|) else t
    case Prune(threshold, ok) => if ok then t.(rows := Younger(t.rows, threshold)) else t
  }

  function DoAll(t: Table, ops: seq<Op>): Table
    decreases |ops|
  {
    if ops == [] then t else DoAll(Do(t, ops[0]), ops[1..])
  }

  /** A blank level is stored as INFO, a blank service as default, and every entry keeps its message and attributes. */
  lemma BlanksStored(e: LogEntry, now: int)
    ensures Blank(e.level) ==> RecordOf(e, now).level == "INFO"
    ensures Blank(e.service) ==> RecordOf(e, now).service == "default"
    ensures RecordOf(e, now).message == e.message && RecordOf(e, now).attributes == e.attributes
  {
    BlankIff(e.level);
    BlankIff(e.service);
    assert ToUpper("") == "";
  }

  // ---------------------------------------------------------------- what the table must hold

  /** No prune in `ops` reaches the row. */
  predicate Survives(row: Row, ops: seq<Op>) {
    forall i :: 0 <= i < |ops| && ops[i].Prune? && ops[i].ok ==> ops[i].threshold <= row.rec.timestamp
  }

  function Surviving(rows: seq<Row>, ops: seq<Op>): seq<Row> {
    if rows == [] then [] else
      var n := |rows| - 1;
      Surviving(rows[..n], ops) + if Survives(rows[n], ops) then [rows[n]] else []
  }

  /** The committed rows, each judged by the prunes that came after its own batch. */
  function Expected(next: nat, ops: seq<Op>): seq<Row>
    decreases |ops|
  {
    if ops == [] then [] else
      var op, rest := ops[0], ops[1..];
      if op.Insert? && op.ok then Surviving(Numbered(op.recs, next), rest) + Expected(next + |op.recs|, rest)
      else Expected(next, rest)
  }

  lemma {:induction false} SurvivingConcat(a: seq<Row>, b: seq<Row>, ops: seq<Op>)
    ensures Surviving(a + b, ops) == Surviving(a, ops) + Surviving(b, ops)
  {
    if b == [] {
      assert a + b == a;
    } else {
      var n := |b| - 1;
      assert (a + b)[..|a| + n] == a + b[..n];
      SurvivingConcat(a, b[..n], ops);
    }
  }

  lemma SurvivesCons(row: Row, ops: seq<Op>)
    requires ops != []
    ensures Survives(row, ops) <==>
      (ops[0].Prune? && ops[0].ok ==> ops[0].threshold <= row.rec.timestamp) && Survives(row, ops[1..])
  {
    assert forall i :: 1 <= i < |ops| ==> ops[i] == ops[1..][i - 1];
    if Survives(row, ops) {
      assert forall i :: 0 <= i < |ops| - 1 ==> ops[1..][i] == ops[i + 1];
    }
  }

  lemma {:induction false} SurvivingCons(rows: seq<Row>, ops: seq<Op>)
    requires ops != []
    ensures Surviving(rows, ops)
         == Surviving(if ops[0].Prune? && ops[0].ok then Younger(rows, ops[0].threshold) else rows, ops[1..])
  {
    if rows != [] {
      var n := |rows| - 1;
      SurvivingCons(rows[..n], ops);
      SurvivesCons(rows[n], ops);
      if ops[0].Prune? && ops[0].ok {
        var y, z := Younger(rows[..n], ops[0].threshold), if rows[n].rec.timestamp < ops[0].threshold then [] else [rows[n]];
        SurvivingConcat(y, z, ops[1..]);
        assert z != [] ==> z[..0] == [];
      }
    }
  }

  lemma {:induction false} AllSurviveNothing(rows: seq<Row>)
    ensures Surviving(rows, []) == rows
  {
    if rows != [] {
      AllSurviveNothing(rows[..|rows| - 1]);
      assert Survives(rows[|rows| - 1], []);
      assert rows == rows[..|rows| - 1] + [rows[|rows| - 1]];
    }
  }

  lemma InsertFirst(rows: seq<Row>, added: seq<Row>, later: seq<Row>, rest: seq<Op>)
    ensures Surviving(rows + added, rest) + later == Surviving(rows, rest) + (Surviving(added, rest) + later)
  {
    SurvivingConcat(rows, added, rest);
    Associate(Surviving(rows, rest), Surviving(added, rest), later);
  }

  lemma InsertCall(t: Table, ops: seq<Op>)
    requires ops != [] && ops[0].Insert? && ops[0].ok
    ensures var added, next := Numbered(ops[0].recs, t.next), t.next + |ops[0].recs|;
      Surviving(t.rows + added, ops[1..]) + Expected(next, ops[1..]) == Surviving(t.rows, ops) + Expected(t.next, ops)
  {
    SurvivingCons(t.rows, ops);
    InsertFirst(t.rows, Numbered(ops[0].recs, t.next), Expected(t.next + |ops[0].recs|, ops[1..]), ops[1..]);
  }

  lemma OtherCall(t: Table, ops: seq<Op>)
    requires ops != [] && !(ops[0].Insert? && ops[0].ok)
    ensures Expected(t.next, ops) == Expected(t.next, ops[1..]) && Surviving(Do(t, ops[0]).rows, ops[1..]) == Surviving(t.rows, ops)
  {
    SurvivingCons(t.rows, ops);
  }

  /**
    Over every sequence of batch inserts and prunes, failed ones included, the table holds exactly the rows
    it had and the committed ones, in order of insertion, less those that a later prune cut.
  */
  lemma {:induction false} TableIsCommittedMinusPruned(t: Table, ops: seq<Op>)
    ensures DoAll(t, ops).rows == Surviving(t.rows, ops) + Expected(t.next, ops)
    decreases |ops|
  {
    if ops == [] {
      AllSurviveNothing(t.rows);
    } else {
      TableIsCommittedMinusPruned(Do(t, ops[0]), ops[1..]);
      if ops[0].Insert? && ops[0].ok {
        InsertCall(t, ops);
      } else {
        OtherCall(t, ops);
      }
    }
  }

  lemma {:induction false} DoAllSnoc(t: Table, ops: seq<Op>, op: Op)
    ensures DoAll(t, ops + [op]) == Do(DoAll(t, ops), op)
    decreases |ops|
  {
    if ops == [] {
      assert ([] + [op])[1..] == [];
    } else {
      assert (ops + [op])[1..] == ops[1..] + [op];
      DoAllSnoc(Do(t, ops[0]), ops[1..], op);
    }
  }

  // ---------------------------------------------------------------- counts and ids

  function Inserted(ops: seq<Op>): nat {
    if ops == [] then 0 else (if ops[0].Insert? && ops[0].ok then |ops[0].recs| else 0) + Inserted(ops[1..])
  }

  /** The sum of what the prunes report as rows affected. */
  function Pruned(t: Table, ops: seq<Op>): nat
    decreases |ops|
  {
    if ops == [] then 0 else
      (if ops[0].Prune? && ops[0].ok then |t.rows| - |Younger(t.rows, ops[0].threshold)| else 0) + Pruned(Do(t, ops[0]), ops[1..])
  }

  lemma {:induction false} CountsBalance(t: Table, ops: seq<Op>)
    ensures |DoAll(t, ops).rows| + Pruned(t, ops) == |t.rows| + Inserted(ops)
    decreases |ops|
  {
    if ops != [] {
      CountsBalance(Do(t, ops[0]), ops[1..]);
    }
  }

  ghost predicate Ordered(t: Table) {
    && (forall i, j :: 0 <= i < j < |t.rows| ==> t.rows[i].id < t.rows[j].id)
    && (forall i :: 0 <= i < |t.rows| ==> t.rows[i].id < t.next)
  }

  lemma {:induction false} YoungerOrdered(rows: seq<Row>, next: nat, threshold: int)
    requires Ordered(Table(rows, next))
    ensures Ordered(Table(Younger(rows, threshold), next))
    ensures forall r :: r in Younger(rows, threshold) ==> r in rows
  {
    if rows != [] {
      var n := |rows| - 1;
      assert Ordered(Table(rows[..n], next));
      YoungerOrdered(rows[..n], next, threshold);
      assert forall r :: r in rows[..n] ==> r.id < rows[n].id;
    }
  }

  /** Ids grow with the time of insertion, whatever was pruned. */
  lemma {:induction false} IdsStayOrdered(t: Table, ops: seq<Op>)
    requires Ordered(t)
    ensures Ordered(DoAll(t, ops))
    decreases |ops|
  {
    if ops != [] {
      if ops[0].Prune? {
        YoungerOrdered(t.rows, t.next, ops[0].threshold);
      }
      IdsStayOrdered(Do(t, ops[0]), ops[1..]);
    }
  }

  // ---------------------------------------------------------------- the storage object

  class SQLiteStorage {
    var rows: seq<Row>
    var next: nat
    ghost var ops: seq<Op>    // every call that changes the table

    /** The table is what its history makes of an empty one. */
    ghost predicate Valid()
      reads this
    {
      Model() == DoAll(Table([], 1), ops)
    }

    function Model(): Table
      reads this
    {
      Table(rows, next)
    }

    constructor ()
      ensures Valid() && Model() == Table([], 1) && ops == []
    {
      rows, next, ops := [], 1, [];
    }

    /** Row i of the batch. */
    static function RowFor(entries: seq<LogEntry>, now: nat -> int, first: nat, i: nat): Row
      requires i < |entries|
    {
      Row(first + i, RecordOf(entries[i], now(i)))
    }

    /** The rows of the first i entries, the way the loop builds them. */
    static function RowsOfFirst(entries: seq<LogEntry>, now: nat -> int, first: nat, i: nat): (rows: seq<Row>)
      requires i <= |entries|
      ensures |rows| == i
    {
      if i == 0 then [] else RowsOfFirst(entries, now, first, i - 1) + [RowFor(entries, now, first, i - 1)]
    }

    static lemma {:induction false} RowAt(entries: seq<LogEntry>, now: nat -> int, first: nat, i: nat, k: nat)
      requires k < i <= |entries|
      ensures RowsOfFirst(entries, now, first, i)[k] == Row(first + k, RecordOf(entries[k], now(k)))
    {
      if k < i - 1 {
        RowAt(entries, now, first, i - 1, k);
      }
    }

    static lemma RowsOfAll(entries: seq<LogEntry>, now: nat -> int, first: nat)
      ensures RowsOfFirst(entries, now, first, |entries|) == Numbered(RecordsOf(entries, now), first)
    {
      forall k | 0 <= k < |entries|
        ensures RowsOfFirst(entries, now, first, |entries|)[k] == Numbered(RecordsOf(entries, now), first)[k]
      {
        RowAt(entries, now, first, |entries|, k);
      }
    }

    /** The insert loop inside the transaction; it stops at the first failing insert. */
    static method InsertAll(entries: seq<LogEntry>, now: nat -> int, first: nat, failing: nat) returns (tx: seq<Row>, ok: bool)
      ensures ok == (failing >= |entries|)
      ensures ok ==> tx == RowsOfFirst(entries, now, first, |entries|)
    {
      tx := [];
      for i := 0 to |entries|
        invariant tx == RowsOfFirst(entries, now, first, i)
        invariant i <= failing
      {
        if failing == i {
          return tx, false;
        }
        var row := RowFor(entries, now, first, i);
        tx := tx + [row];
      }
      ok := true;
    }

    /**
      `WriteBatch`. `begins` and `commits` say whether those steps of the transaction succeed, `failing` is
      the index of the insert that returns an error (beyond the batch if none does); `now(i)` is the clock when entry i is inserted. On any error
      the deferred rollback drops the transaction.
    */
    method WriteBatch(entries: seq<LogEntry>, now: nat -> int, begins: bool, failing: nat, commits: bool) returns (ok: bool)
      requires Valid()
      modifies this
      ensures Valid() && ops == old(ops) + [Insert(RecordsOf(entries, now), ok)]
      ensures ok == (entries == [] || (begins && commits && failing >= |entries|))
      ensures Model() == Do(old(Model()), Insert(RecordsOf(entries, now), ok))
    {
      ok := Transaction(entries, now, begins, failing, commits);
      DoAllSnoc(Table([], 1), ops, Insert(RecordsOf(entries, now), ok));
      ops := ops + [Insert(RecordsOf(entries, now), ok)];
    }

    method Transaction(entries: seq<LogEntry>, now: nat -> int, begins: bool, failing: nat, commits: bool) returns (ok: bool)
      modifies this`rows, this`next
      ensures ok == (entries == [] || (begins && commits && failing >= |entries|))
      ensures Model() == Do(old(Model()), Insert(RecordsOf(entries, now), ok))
    {
      if entries == [] {
        assert rows + Numbered([], next) == rows;
        return true;
      }
      if !begins {
        return false;
      }
      var tx;
      tx, ok := InsertAll(entries, now, next, failing);
      RowsOfAll(entries, now, next);
      ok := ok && commits;
      if ok {
        rows, next := rows + tx, next + |entries|;
      }
    }

    method PruneOldLogs(threshold: int, executes: bool) returns (affected: Option<nat>)
      requires Valid()
      modifies this
      ensures Valid() && ops == old(ops) + [Prune(threshold, executes)]
      ensures Model() == Do(old(Model()), Prune(threshold, executes))
      ensures affected == if executes then Some(|old(rows)| - |rows|) else None
    {
      affected := None;
      if executes {
        affected := Delete(threshold);
      }
      DoAllSnoc(Table([], 1), ops, Prune(threshold, executes));
      ops := ops + [Prune(threshold, executes)];
    }

    method Delete(threshold: int) returns (affected: Option<nat>)
      modifies this`rows
      ensures rows == Younger(old(rows), threshold) && affected == Some(|old(rows)| - |rows|)
    {
      var kept: seq<Row> := [];
      for i := 0 to |rows|
        invariant kept == Younger(rows[..i], threshold)
      {
        assert rows[..i + 1][..i] == rows[..i];
        if rows[i].rec.timestamp >= threshold {
          kept := kept + [rows[i]];
        }
      }
      assert rows[..|rows|] == rows;
      affected := Some(|rows| - |kept|);
      rows := kept;
    }

    /** The rows counted, and what the prunes have reported, make up what was committed. */
    method CountLogs() returns (n: nat)
      requires Valid()
      ensures n == |Model().rows| && n + Pruned(Table([], 1), ops) == Inserted(ops)
    {
      n := |rows|;
      CountsBalance(Table([], 1), ops);
    }
  }
}
