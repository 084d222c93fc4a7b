/**
  `QueryLogs`: the SQL text and its positional arguments, an evaluator that reads the text back, and what
  the answer means: the matching rows, newest first, from the offset on, at most the normalised limit.
*/
module LogQuery {
  import opened LogEntries
  import opened Sequences
  import opened Text
  import opened LogStore
  import opened LikePattern

  datatype Filter = Filter(
    start: Option<int>, end: Option<int>, level: string, service: string, search: string, limit: int, offset: int)

  datatype Value = IntValue(i: int) | TextValue(t: string)

  // ---------------------------------------------------------------- meaning

  /** The limit in force: 100 unless the filter asks for one from 1 to 1000. */
  function LimitOf(f: Filter): (n: nat)
    ensures 1 <= n <= 1000 && (n != f.limit ==> n == 100 && !(1 <= f.limit <= 1000))
  {
    if f.limit <= 0 || f.limit > 1000 then 100 else f.limit
  }

  function OffsetOf(f: Filter): nat { if f.offset > 0 then f.offset else 0 }

  predicate Matches(f: Filter, r: Record) {
    && (f.start.Some? ==> f.start.value <= r.timestamp)
    && (f.end.Some? ==> r.timestamp <= f.end.value)
    && (f.level != "" ==> r.level == ToUpper(f.level))
    && (f.service != "" ==> r.service == f.service)
    && (f.search != "" ==> Like("%" + f.search + "%", r.message))
  }

  /** Newest first; rows of the same time in the order of their ids, a fixed choice where SQL leaves it open. */
  predicate Precedes(a: Row, b: Row) {
    a.rec.timestamp > b.rec.timestamp || (a.rec.timestamp == b.rec.timestamp && a.id < b.id)
  }

  predicate NewestFirst(rows: seq<Row>) { forall i, j :: 0 <= i < j < |rows| ==> Precedes(rows[i], rows[j]) }

  function Place(r: Row, rows: seq<Row>): seq<Row> {
    if rows == [] then [r]
    else if Precedes(r, rows[0]) then [r] + rows
    else [rows[0]] + Place(r, rows[1..])
  }

  function Sort(rows: seq<Row>): seq<Row> {
    if rows == [] then [] else Place(rows[0], Sort(rows[1..]))
  }

  function Select(f: Filter, rows: seq<Row>): seq<Row> {
    if rows == [] then [] else (if Matches(f, rows[0].rec) then [rows[0]] else []) + Select(f, rows[1..])
  }

  function Page(rows: seq<Row>, offset: nat, limit: nat): seq<Row> {
    if offset >= |rows| then [] else if offset + limit >= |rows| then rows[offset..] else rows[offset..offset + limit]
  }

  function Answer(f: Filter, rows: seq<Row>): seq<Row> {
    Page(Sort(Select(f, rows)), OffsetOf(f), LimitOf(f))
  }

  // ---------------------------------------------------------------- SQL: text and evaluation

  const SELECT := "SELECT id, timestamp, level, " + ("service, message, attributes " + "FROM system_logs")
  const WHERE := " WHERE "
  const AND := " AND "
  const ORDER := " ORDER BY timestamp DESC"
  const LIMIT := " LIMIT ?"
  const OFFSET := " OFFSET ?"

  datatype Cond = FromTime | ToTime | LevelIs | ServiceIs | MessageLike

  function CondText(c: Cond): string {
    match c
    case FromTime => "timestamp >= ?"
    case ToTime => "timestamp <= ?"
    case LevelIs => "level = ?"
    case ServiceIs => "service = ?"
    case MessageLike => "message LIKE ?"
  }

  datatype Query = Query(conds: seq<Cond>, hasOffset: bool)

  /** What follows `prefix` in `t`, if `t` begins with it. */
  function After(prefix: string, t: string): Option<string> {
    if prefix <= t then Some(t[|prefix|..]) else None
  }

  function ParseCond(t: string): Option<(Cond, string)> {
    if After(CondText(FromTime), t).Some? then Some((FromTime, After(CondText(FromTime), t).value))
    else if After(CondText(ToTime), t).Some? then Some((ToTime, After(CondText(ToTime), t).value))
    else if After(CondText(LevelIs), t).Some? then Some((LevelIs, After(CondText(LevelIs), t).value))
    else if After(CondText(ServiceIs), t).Some? then Some((ServiceIs, After(CondText(ServiceIs), t).value))
    else if After(CondText(MessageLike), t).Some? then Some((MessageLike, After(CondText(MessageLike), t).value))
    else None
  }

  /** A list of conditions joined by AND. */
  function ParseConds(t: string): Option<(seq<Cond>, string)>
    decreases |t|
  {
    var first := ParseCond(t);
    if first.None? then None
    else
      var (c, rest) := first.value;
      var more := After(AND, rest);
      if more.None? || |more.value| >= |t| then Some(([c], rest))
      else
        var tail := ParseConds(more.value);
        if tail.None? then None else Some(([c] + tail.value.0, tail.value.1))
  }

  function ParseEnd(conds: seq<Cond>, t: string): Option<Query> {
    var o := After(ORDER, t);
    if o.None? then None
    else
      var l := After(LIMIT, o.value);
      if l.None? then None
      else if l.value == "" then Some(Query(conds, false))
      else if l.value == OFFSET then Some(Query(conds, true))
      else None
  }

  function ParseBody(t: string): Option<Query> {
    var w := After(WHERE, t);
    if w.None? then ParseEnd([], t)
    else
      var cs := ParseConds(w.value);
      if cs.None? then None else ParseEnd(cs.value.0, cs.value.1)
  }

  function ParseQuery(t: string): Option<Query> {
    var body := After(SELECT, t);
    if body.None? then None else ParseBody(body.value)
  }

  /** One condition with the argument in its place; a value of the wrong type makes the query fail. */
  function Holds(c: Cond, v: Value, r: Record): Option<bool> {
    match (c, v)
    case (FromTime, IntValue(i)) => Some(r.timestamp >= i)
    case (ToTime, IntValue(i)) => Some(r.timestamp <= i)
    case (LevelIs, TextValue(t)) => Some(r.level == t)
    case (ServiceIs, TextValue(t)) => Some(r.service == t)
    case (MessageLike, TextValue(t)) => Some(Like(t, r.message))
    case _ => None
  }

  function AllHold(conds: seq<Cond>, args: seq<Value>, r: Record): Option<bool>
    requires |conds| == |args|
  {
    if conds == [] then Some(true)
    else
      var h, t := Holds(conds[0], args[0], r), AllHold(conds[1..], args[1..], r);
      if h.None? || t.None? then None else Some(h.value && t.value)
  }

  function Where(conds: seq<Cond>, args: seq<Value>, rows: seq<Row>): Option<seq<Row>>
    requires |conds| == |args|
  {
    if rows == [] then Some([])
    else
      var h, t := AllHold(conds, args, rows[0].rec), Where(conds, args, rows[1..]);
      if h.None? || t.None? then None else Some((if h.value then [rows[0]] else []) + t.value)
  }

  /** The answer of the database to a text with positional arguments; one argument for each placeholder, in order. */
  function Evaluate(text: string, args: seq<Value>, rows: seq<Row>): Option<seq<Row>> {
    var q := ParseQuery(text);
    if q.None? then None
    else
      var n := |q.value.conds|;
      if |args| != n + 1 + (if q.value.hasOffset then 1 else 0) then None
      else if !args[n].IntValue? || args[n].i < 0 then None
      else if q.value.hasOffset && (!args[n + 1].IntValue? || args[n + 1].i < 0) then None
      else
        var chosen := Where(q.value.conds, args[..n], rows);
        if chosen.None? then None
        else Some(Page(Sort(chosen.value), if q.value.hasOffset then args[n + 1].i else 0, args[n].i))
  }

  // ---------------------------------------------------------------- compilation

  function CondsOf(f: Filter): seq<Cond> {
    (if f.start.Some? then [FromTime] else []) + (if f.end.Some? then [ToTime] else [])
    + (if f.level != "" then [LevelIs] else []) + (if f.service != "" then [ServiceIs] else [])
    + (if f.search != "" then [MessageLike] else [])
  }

  function CondArgs(f: Filter): seq<Value> {
    (if f.start.Some? then [IntValue(f.start.value)] else []) + (if f.end.Some? then [IntValue(f.end.value)] else [])
    + (if f.level != "" then [TextValue(ToUpper(f.level))] else []) + (if f.service != "" then [TextValue(f.service)] else [])
    + (if f.search != "" then [TextValue("%" + f.search + "%")] else [])
  }

  function Texts(conds: seq<Cond>): seq<string> {
    if conds == [] then [] else [CondText(conds[0])] + Texts(conds[1..])
  }

  /** `strings.Join(parts, " AND ")`. */
  function JoinAnd(parts: seq<string>): string {
    if parts == [] then "" else if |parts| == 1 then parts[0] else parts[0] + (AND + JoinAnd(parts[1..]))
  }

  function Middle(conds: seq<Cond>): string { if conds != [] then WHERE + JoinAnd(Texts(conds)) else "" }

  function Tail(hasOffset: bool): string { if hasOffset then OFFSET else "" }

  function TextOf(conds: seq<Cond>, hasOffset: bool): string {
    SELECT + (Middle(conds) + (ORDER + (LIMIT + Tail(hasOffset))))
  }

  lemma AfterOwn(prefix: string, rest: string)
    ensures After(prefix, prefix + rest) == Some(rest)
  {
  }

  lemma NotAfter(prefix: string, t: string, i: nat)
    requires i < |prefix| && (i < |t| ==> t[i] != prefix[i])
    ensures After(prefix, t).None?
  {
  }

  lemma CondRead(c: Cond, rest: string)
    ensures ParseCond(CondText(c) + rest) == Some((c, rest))
  {
    var t := CondText(c) + rest;
    AfterOwn(CondText(c), rest);
    var i := if c.ToTime? then 10 else 0;
    assert t[i] == CondText(c)[i];
    if !c.FromTime? { NotAfter(CondText(FromTime), t, i); }
    if !c.FromTime? && !c.ToTime? { NotAfter(CondText(ToTime), t, 0); }
    if c.ServiceIs? || c.MessageLike? { NotAfter(CondText(LevelIs), t, 0); }
    if c.MessageLike? { NotAfter(CondText(ServiceIs), t, 0); }
  }

  lemma {:induction false} CondsRead(conds: seq<Cond>, rest: string)
    requires conds != [] && After(AND, rest).None?
    ensures ParseConds(JoinAnd(Texts(conds)) + rest) == Some((conds, rest))
    decreases |conds|
  {
    var c, tail := conds[0], conds[1..];
    assert Texts(conds)[1..] == Texts(tail);
    if tail == [] {
      CondRead(c, rest);
      assert conds == [c];
    } else {
      assert Texts(tail) != [];
      var more := JoinAnd(Texts(tail)) + rest;
      Associate(CondText(c), AND + JoinAnd(Texts(tail)), rest);
      Associate(AND, JoinAnd(Texts(tail)), rest);
      CondRead(c, AND + more);
      AfterOwn(AND, more);
      CondsRead(tail, rest);
      assert [c] + tail == conds;
    }
  }

  lemma EndRead(conds: seq<Cond>, hasOffset: bool)
    ensures ParseEnd(conds, ORDER + (LIMIT + Tail(hasOffset))) == Some(Query(conds, hasOffset))
  {
    AfterOwn(ORDER, LIMIT + Tail(hasOffset));
    AfterOwn(LIMIT, Tail(hasOffset));
  }

  lemma BodyWithout(hasOffset: bool)
    ensures ParseBody(ORDER + (LIMIT + Tail(hasOffset))) == Some(Query([], hasOffset))
  {
    EndRead([], hasOffset);
    NotAfter(WHERE, ORDER + (LIMIT + Tail(hasOffset)), 1);
  }

  lemma BodyWith(conds: seq<Cond>, hasOffset: bool)
    requires conds != []
    ensures ParseBody(WHERE + (JoinAnd(Texts(conds)) + (ORDER + (LIMIT + Tail(hasOffset))))) == Some(Query(conds, hasOffset))
  {
    var end := ORDER + (LIMIT + Tail(hasOffset));
    EndRead(conds, hasOffset);
    AfterOwn(WHERE, JoinAnd(Texts(conds)) + end);
    NotAfter(AND, end, 1);
    CondsRead(conds, end);
  }

  lemma BodyRead(conds: seq<Cond>, hasOffset: bool)
    ensures ParseBody(Middle(conds) + (ORDER + (LIMIT + Tail(hasOffset)))) == Some(Query(conds, hasOffset))
  {
    var end := ORDER + (LIMIT + Tail(hasOffset));
    if conds == [] {
      BodyWithout(hasOffset);
      assert Middle(conds) + end == end;
    } else {
      BodyWith(conds, hasOffset);
      Associate(WHERE, JoinAnd(Texts(conds)), end);
    }
  }

  lemma TextRead(conds: seq<Cond>, hasOffset: bool)
    ensures ParseQuery(TextOf(conds, hasOffset)) == Some(Query(conds, hasOffset))
  {
    BodyRead(conds, hasOffset);
    AfterOwn(SELECT, Middle(conds) + (ORDER + (LIMIT + Tail(hasOffset))));
  }

  lemma {:induction false} AllHoldConcat(c1: seq<Cond>, a1: seq<Value>, c2: seq<Cond>, a2: seq<Value>, r: Record)
    requires |c1| == |a1| && |c2| == |a2|
    requires AllHold(c1, a1, r).Some? && AllHold(c2, a2, r).Some?
    ensures AllHold(c1 + c2, a1 + a2, r) == Some(AllHold(c1, a1, r).value && AllHold(c2, a2, r).value)
  {
    if c1 == [] {
      assert c1 + c2 == c2 && a1 + a2 == a2;
    } else {
      assert (c1 + c2)[1..] == c1[1..] + c2 && (a1 + a2)[1..] == a1[1..] + a2;
      AllHoldConcat(c1[1..], a1[1..], c2, a2, r);
    }
  }

  lemma AllHoldOne(c: Cond, v: Value, r: Record)
    requires Holds(c, v, r).Some?
    ensures AllHold([c], [v], r) == Holds(c, v, r)
  {
    assert AllHold([c][1..], [v][1..], r) == Some(true);
  }

  /** The conditions of a filter, with their arguments, hold of exactly the records that match it. */
  lemma CondsMeanMatches(f: Filter, r: Record)
    ensures |CondsOf(f)| == |CondArgs(f)|
    ensures AllHold(CondsOf(f), CondArgs(f), r) == Some(Matches(f, r))
  {
    var none: seq<Cond>, noArgs: seq<Value> := [], [];
    var c1, a1 := if f.start.Some? then [FromTime] else none, if f.start.Some? then [IntValue(f.start.value)] else noArgs;
    var c2, a2 := if f.end.Some? then [ToTime] else none, if f.end.Some? then [IntValue(f.end.value)] else noArgs;
    var c3, a3 := if f.level != "" then [LevelIs] else none, if f.level != "" then [TextValue(ToUpper(f.level))] else noArgs;
    var c4, a4 := if f.service != "" then [ServiceIs] else none, if f.service != "" then [TextValue(f.service)] else noArgs;
    var c5, a5 := if f.search != "" then [MessageLike] else none, if f.search != "" then [TextValue("%" + f.search + "%")] else noArgs;
    if f.start.Some? { AllHoldOne(FromTime, a1[0], r); }
    if f.end.Some? { AllHoldOne(ToTime, a2[0], r); }
    if f.level != "" { AllHoldOne(LevelIs, a3[0], r); }
    if f.service != "" { AllHoldOne(ServiceIs, a4[0], r); }
    if f.search != "" { AllHoldOne(MessageLike, a5[0], r); }
    AllHoldConcat(c1, a1, c2, a2, r);
    AllHoldConcat(c1 + c2, a1 + a2, c3, a3, r);
    AllHoldConcat(c1 + c2 + c3, a1 + a2 + a3, c4, a4, r);
    AllHoldConcat(c1 + c2 + c3 + c4, a1 + a2 + a3 + a4, c5, a5, r);
  }

  lemma {:induction false} WhereSelects(f: Filter, rows: seq<Row>)
    requires |CondsOf(f)| == |CondArgs(f)|
    ensures Where(CondsOf(f), CondArgs(f), rows) == Some(Select(f, rows))
  {
    if rows != [] {
      CondsMeanMatches(f, rows[0].rec);
      WhereSelects(f, rows[1..]);
    }
  }

  function ArgsOf(f: Filter): seq<Value> {
    CondArgs(f) + [IntValue(LimitOf(f))] + if f.offset > 0 then [IntValue(f.offset)] else []
  }

  lemma CompilationKeepsMeaning(f: Filter, rows: seq<Row>)
    ensures Evaluate(TextOf(CondsOf(f), f.offset > 0), ArgsOf(f), rows) == Some(Answer(f, rows))
  {
    TextRead(CondsOf(f), f.offset > 0);
    CondsMeanMatches(f, Record(0, "", "", "", map[]));
    WhereSelects(f, rows);
    ArgsSplit(CondArgs(f), [IntValue(LimitOf(f))], if f.offset > 0 then [IntValue(f.offset)] else []);
  }

  lemma ArgsSplit(front: seq<Value>, limit: seq<Value>, offset: seq<Value>)
    requires |limit| == 1
    ensures var args, n := front + limit + offset, |front|;
      args[..n] == front && args[n] == limit[0] && (offset != [] ==> args[n + 1] == offset[0])
  {
  }

  function Placeholders(t: string): nat {
    if t == "" then 0 else (if t[0] == '?' then 1 else 0) + Placeholders(t[1..])
  }

  lemma {:induction false} PlaceholdersConcat(a: string, b: string)
    ensures Placeholders(a + b) == Placeholders(a) + Placeholders(b)
  {
    if a == "" {
      assert a + b == b;
    } else {
      assert (a + b)[1..] == a[1..] + b;
      PlaceholdersConcat(a[1..], b);
    }
  }

  lemma {:induction false} NoPlaceholder(t: string)
    requires '?' !in t
    ensures Placeholders(t) == 0
  {
    if t != "" {
      NoPlaceholder(t[1..]);
    }
  }

  lemma OnePlaceholder(t: string)
    requires t != "" && t[|t| - 1] == '?' && '?' !in t[..|t| - 1]
    ensures Placeholders(t) == 1
  {
    var head := t[..|t| - 1];
    assert t == head + "?";
    NoPlaceholder(head);
    PlaceholdersConcat(head, "?");
    assert "?"[1..] == "";
  }

  lemma {:induction false} JoinedPlaceholders(conds: seq<Cond>)
    ensures Placeholders(JoinAnd(Texts(conds))) == |conds|
  {
    if conds != [] {
      OnePlaceholder(CondText(conds[0]));
      JoinedPlaceholders(conds[1..]);
      assert Texts(conds)[1..] == Texts(conds[1..]);
      if |conds| > 1 {
        assert |Texts(conds[1..])| > 0;
        PlaceholdersConcat(CondText(conds[0]), AND + JoinAnd(Texts(conds[1..])));
        PlaceholdersConcat(AND, JoinAnd(Texts(conds[1..])));
        ClausesClean();
        NoPlaceholder(AND);
      }
    }
  }

  lemma FourPlaceholders(a: string, b: string, c: string, d: string, e: string)
    ensures Placeholders(a + (b + (c + (d + e))))
         == Placeholders(a) + Placeholders(b) + Placeholders(c) + Placeholders(d) + Placeholders(e)
  {
    PlaceholdersConcat(a, b + (c + (d + e)));
    PlaceholdersConcat(b, c + (d + e));
    PlaceholdersConcat(c, d + e);
    PlaceholdersConcat(d, e);
  }

  lemma ThreePieces(a: string, b: string, c: string)
    requires '?' !in a && '?' !in b && '?' !in c
    ensures Placeholders(a + (b + c)) == 0
  {
    PlaceholdersConcat(a, b + c);
    PlaceholdersConcat(b, c);
    NoPlaceholder(a);
    NoPlaceholder(b);
    NoPlaceholder(c);
  }

  lemma SelectClean()
    ensures Placeholders(SELECT) == 0
  {
    ThreePieces("SELECT id, timestamp, level, ", "service, message, attributes ", "FROM system_logs");
  }

  lemma ClausesClean()
    ensures '?' !in ORDER && '?' !in WHERE && '?' !in AND
  {
  }

  lemma PagePlaceholders(hasOffset: bool)
    ensures Placeholders(LIMIT) == 1 && Placeholders(Tail(hasOffset)) == if hasOffset then 1 else 0
  {
    OnePlaceholder(LIMIT);
    OnePlaceholder(OFFSET);
  }

  lemma MiddlePlaceholders(conds: seq<Cond>)
    ensures Placeholders(Middle(conds)) == |conds|
  {
    JoinedPlaceholders(conds);
    PlaceholdersConcat(WHERE, JoinAnd(Texts(conds)));
    ClausesClean();
    NoPlaceholder(WHERE);
  }

  lemma TextPlaceholders(conds: seq<Cond>, hasOffset: bool)
    ensures Placeholders(TextOf(conds, hasOffset)) == |conds| + if hasOffset then 2 else 1
  {
    FourPlaceholders(SELECT, Middle(conds), ORDER, LIMIT, Tail(hasOffset));
    SelectClean();
    ClausesClean();
    NoPlaceholder(ORDER);
    PagePlaceholders(hasOffset);
    MiddlePlaceholders(conds);
  }

  /** Placeholders and arguments align one to one. */
  lemma PlaceholdersAlign(f: Filter)
    ensures Placeholders(TextOf(CondsOf(f), f.offset > 0)) == |ArgsOf(f)|
  {
    TextPlaceholders(CondsOf(f), f.offset > 0);
    CondsMeanMatches(f, Record(0, "", "", "", map[]));
  }

  // ---------------------------------------------------------------- the query builder

  lemma {:induction false} TextsSnoc(conds: seq<Cond>, c: Cond)
    ensures Texts(conds + [c]) == Texts(conds) + [CondText(c)]
  {
    if conds == [] {
      assert ([] + [c])[1..] == [];
    } else {
      assert (conds + [c])[1..] == conds[1..] + [c];
      TextsSnoc(conds[1..], c);
    }
  }

  method TimeConditions(f: Filter) returns (conditions: seq<string>, args: seq<Value>, ghost conds: seq<Cond>)
    ensures conditions == Texts(conds)
    ensures conds == (if f.start.Some? then [FromTime] else []) + (if f.end.Some? then [ToTime] else [])
    ensures args == (if f.start.Some? then [IntValue(f.start.value)] else []) + (if f.end.Some? then [IntValue(f.end.value)] else [])
  {
    conditions, args, conds := [], [], [];
    if f.start.Some? {
      TextsSnoc(conds, FromTime);
      conditions, conds := conditions + ["timestamp >= ?"], conds + [FromTime];
      args := args + [IntValue(f.start.value)];
    }
    if f.end.Some? {
      TextsSnoc(conds, ToTime);
      conditions, conds := conditions + ["timestamp <= ?"], conds + [ToTime];
      args := args + [IntValue(f.end.value)];
    }
  }

  method NameConditions(f: Filter, conditions: seq<string>, args: seq<Value>, ghost conds: seq<Cond>)
    returns (conditions': seq<string>, args': seq<Value>, ghost conds': seq<Cond>)
    requires conditions == Texts(conds)
    ensures conditions' == Texts(conds')
    ensures conds' == conds + (if f.level != "" then [LevelIs] else []) + (if f.service != "" then [ServiceIs] else [])
    ensures args' == args + (if f.level != "" then [TextValue(ToUpper(f.level))] else [])
                     + (if f.service != "" then [TextValue(f.service)] else [])
  {
    conditions', args', conds' := conditions, args, conds;
    if f.level != "" {
      TextsSnoc(conds', LevelIs);
      conditions', conds' := conditions' + ["level = ?"], conds' + [LevelIs];
      args' := args' + [TextValue(ToUpper(f.level))];
    }
    if f.service != "" {
      TextsSnoc(conds', ServiceIs);
      conditions', conds' := conditions' + ["service = ?"], conds' + [ServiceIs];
      args' := args' + [TextValue(f.service)];
    }
  }

  method Conditions(f: Filter) returns (conditions: seq<string>, args: seq<Value>)
    ensures conditions == Texts(CondsOf(f)) && args == CondArgs(f)
  {
    ghost var conds;
    conditions, args, conds := TimeConditions(f);
    conditions, args, conds := NameConditions(f, conditions, args, conds);
    if f.search != "" {
      TextsSnoc(conds, MessageLike);
      conditions, conds := conditions + ["message LIKE ?"], conds + [MessageLike];
      args := args + [TextValue("%" + f.search + "%")];
    }
    assert conds == CondsOf(f);
  }

  lemma LeftToRight(a: string, b: string, c: string, d: string, e: string)
    ensures a + b + c + d + e == a + (b + (c + (d + e)))
  {
  }

  method Assemble(conditions: seq<string>, hasOffset: bool, ghost conds: seq<Cond>) returns (query: string)
    requires conditions == Texts(conds)
    ensures query == TextOf(conds, hasOffset)
  {
    query := SELECT;
    if |conditions| > 0 {
      query := query + (WHERE + JoinAnd(conditions));
    }
    assert query == SELECT + Middle(conds);
    query := query + ORDER;
    query := query + LIMIT;
    if hasOffset {
      query := query + OFFSET;
    }
    LeftToRight(SELECT, Middle(conds), ORDER, LIMIT, Tail(hasOffset));
  }

  /** The text and the arguments, built by appends; whatever the rows, the database answers what the filter means. */
  method BuildQuery(f: Filter) returns (query: string, args: seq<Value>)
    ensures forall rows :: Evaluate(query, args, rows) == Some(Answer(f, rows))
    ensures Placeholders(query) == |args|
  {
    var conditions;
    conditions, args := Conditions(f);
    query := Assemble(conditions, f.offset > 0, CondsOf(f));
    var limit := f.limit;
    if limit <= 0 || limit > 1000 {
      limit := 100;
    }
    args := args + [IntValue(limit)];
    if f.offset > 0 {
      args := args + [IntValue(f.offset)];
    }
    Compiled(f, query, args);
  }

  lemma Compiled(f: Filter, query: string, args: seq<Value>)
    requires query == TextOf(CondsOf(f), f.offset > 0) && args == ArgsOf(f)
    ensures forall rows :: Evaluate(query, args, rows) == Some(Answer(f, rows))
    ensures Placeholders(query) == |args|
  {
    PlaceholdersAlign(f);
    forall rows ensures Evaluate(query, args, rows) == Some(Answer(f, rows)) {
      CompilationKeepsMeaning(f, rows);
    }
  }
}
