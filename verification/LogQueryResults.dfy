/** What a caller of `QueryLogs` can rely on: the order, the pages, and finding what was written. */
module LogQueryResults {
  import opened LogEntries
  import opened Sequences
  import opened Text
  import opened LogStore
  import opened LikePattern
  import opened LogQuery

  // ---------------------------------------------------------------- the sorted rows are determined

  predicate DistinctIds(rows: seq<Row>) { forall i, j :: 0 <= i < j < |rows| ==> rows[i].id != rows[j].id }

  lemma {:induction false} PlaceAdds(r: Row, rows: seq<Row>)
    ensures multiset(Place(r, rows)) == multiset(rows) + multiset{r}
  {
    if rows != [] && !Precedes(r, rows[0]) {
      PlaceAdds(r, rows[1..]);
      assert rows == [rows[0]] + rows[1..];
    }
  }

  lemma PlacedFrom(r: Row, rows: seq<Row>, x: Row)
    requires x in Place(r, rows)
    ensures x == r || x in rows
  {
    PlaceAdds(r, rows);
    assert x in multiset(Place(r, rows));
  }

  lemma HeadPrecedes(rows: seq<Row>, x: Row)
    requires NewestFirst(rows) && rows != [] && x in rows[1..]
    ensures Precedes(rows[0], x)
  {
    var j :| 0 <= j < |rows[1..]| && rows[1..][j] == x;
    assert rows[j + 1] == x;
  }

  lemma {:induction false} PlaceOrders(r: Row, rows: seq<Row>)
    requires NewestFirst(rows) && forall i :: 0 <= i < |rows| ==> rows[i].id != r.id
    ensures NewestFirst(Place(r, rows))
  {
    if rows != [] && !Precedes(r, rows[0]) {
      var s := Place(r, rows[1..]);
      PlaceOrders(r, rows[1..]);
      forall i | 0 <= i < |s| ensures Precedes(rows[0], s[i]) {
        PlacedFrom(r, rows[1..], s[i]);
        if s[i] != r {
          HeadPrecedes(rows, s[i]);
        }
      }
    } else if rows != [] {
      assert forall i :: 0 <= i < |rows| ==> Precedes(r, rows[i]);
    }
  }

  lemma {:induction false} SortSorts(rows: seq<Row>)
    requires DistinctIds(rows)
    ensures NewestFirst(Sort(rows)) && multiset(Sort(rows)) == multiset(rows)
  {
    if rows != [] {
      SortSorts(rows[1..]);
      assert rows == [rows[0]] + rows[1..];
      var s := Sort(rows[1..]);
      forall i | 0 <= i < |s| ensures s[i].id != rows[0].id {
        assert s[i] in multiset(s);
        assert s[i] in rows[1..];
      }
      PlaceAdds(rows[0], s);
      PlaceOrders(rows[0], s);
    }
  }

  lemma SameHead(a: seq<Row>, b: seq<Row>)
    requires NewestFirst(a) && NewestFirst(b) && multiset(a) == multiset(b) && a != []
    ensures b != [] && a[0] == b[0]
  {
    assert a[0] in multiset(a);
    assert a[0] in b;
    assert b[0] in multiset(b);
    assert b[0] in a;
    var i :| 0 <= i < |b| && b[i] == a[0];
    var j :| 0 <= j < |a| && a[j] == b[0];
  }

  /** Newest-first order with the same rows leaves no choice. */
  lemma {:induction false} SortedUnique(a: seq<Row>, b: seq<Row>)
    requires NewestFirst(a) && NewestFirst(b) && multiset(a) == multiset(b)
    ensures a == b
    decreases |a|
  {
    if a == [] {
      assert |multiset(b)| == 0;
    } else {
      SameHead(a, b);
      assert a == [a[0]] + a[1..] && b == [b[0]] + b[1..];
      assert multiset(a[1..]) == multiset(a) - multiset{a[0]};
      assert multiset(b[1..]) == multiset(b) - multiset{b[0]};
      SortedUnique(a[1..], b[1..]);
    }
  }

  lemma {:induction false} SelectIsFilter(f: Filter, rows: seq<Row>)
    requires DistinctIds(rows)
    ensures DistinctIds(Select(f, rows))
    ensures forall r :: r in Select(f, rows) <==> r in rows && Matches(f, r.rec)
  {
    if rows != [] {
      SelectIsFilter(f, rows[1..]);
      assert rows == [rows[0]] + rows[1..];
      assert forall r :: r in rows[1..] ==> r.id != rows[0].id;
    }
  }

  /** `sorted` has exactly the matching rows, newest first. */
  ghost predicate SortedMatch(f: Filter, rows: seq<Row>, sorted: seq<Row>) {
    NewestFirst(sorted) && forall r :: r in sorted <==> r in rows && Matches(f, r.rec)
  }

  /** Rows `from` to `from + count - 1`, as far as there are any. */
  function Stretch(rows: seq<Row>, from: nat, count: nat): seq<Row> {
    rows[Min(from, |rows|)..Min(from + count, |rows|)]
  }

  /**
    The answer is a stretch of the one sequence that is newest first and has exactly the matching rows: it
    begins at the offset, or at 0 when that is not positive, and has as many rows as the limit, or 100 when
    the limit is not positive or above 1000.
  */
  lemma AnswerIsDetermined(f: Filter, rows: seq<Row>, sorted: seq<Row>)
    requires DistinctIds(rows)
    requires SortedMatch(f, rows, sorted)
    ensures Answer(f, rows) == Stretch(sorted, if f.offset <= 0 then 0 else f.offset,
      if f.limit <= 0 || f.limit > 1000 then 100 else f.limit)
  {
    OnlySorted(f, rows, sorted);
    PageIsStretch(sorted, OffsetOf(f), LimitOf(f));
  }

  lemma OnlySorted(f: Filter, rows: seq<Row>, sorted: seq<Row>)
    requires DistinctIds(rows)
    requires SortedMatch(f, rows, sorted)
    ensures Sort(Select(f, rows)) == sorted
  {
    var chosen := Select(f, rows);
    SelectIsFilter(f, rows);
    SortSorts(chosen);
    SameRows(Sort(chosen), sorted);
    SortedUnique(Sort(chosen), sorted);
  }

  lemma PageIsStretch(rows: seq<Row>, from: nat, count: nat)
    ensures Page(rows, from, count) == Stretch(rows, from, count)
  {
  }

  lemma StretchIs(rows: seq<Row>, from: nat, count: nat)
    requires NewestFirst(rows)
    ensures var s := Stretch(rows, from, count);
      && |s| == (if |rows| <= from then 0 else if |rows| - from <= count then |rows| - from else count)
      && NewestFirst(s) && forall r :: r in s ==> r in rows
  {
  }

  ghost function Matching(f: Filter, rows: seq<Row>): set<Row> { set r | r in rows && Matches(f, r.rec) }

  lemma {:induction false} DistinctCount(rows: seq<Row>)
    requires DistinctIds(rows)
    ensures |rows| == |set r | r in rows|
  {
    if rows != [] {
      var rest := rows[1..];
      DistinctCount(rest);
      assert rows == [rows[0]] + rest;
      assert rows[0] !in rest;
      assert (set r | r in rows) == (set r | r in rest) + {rows[0]};
    }
  }

  lemma SortedMatching(f: Filter, rows: seq<Row>)
    requires DistinctIds(rows)
    ensures var sorted := Sort(Select(f, rows));
      SortedMatch(f, rows, sorted) && |sorted| == |Matching(f, rows)|
  {
    var chosen := Select(f, rows);
    SelectIsFilter(f, rows);
    SortSorts(chosen);
    DistinctCount(chosen);
    assert (set r | r in chosen) == Matching(f, rows);
    assert |Sort(chosen)| == |multiset(Sort(chosen))| == |chosen|;
    forall r ensures r in Sort(chosen) <==> r in chosen {
      assert r in multiset(Sort(chosen)) <==> r in multiset(chosen);
    }
  }

  /**
    `QueryLogs`, from the filter to the rows: the text and the arguments are built and given to the
    database. As many rows come back as match, less the positive offset, but at most 100 unless the filter
    sets a limit from 1 to 1000; they match, come newest first, and are the stretch of the sorted matching
    rows that begins at the offset.
  */
  method QueryLogs(f: Filter, rows: seq<Row>) returns (answer: seq<Row>)
    requires DistinctIds(rows)
    ensures var n, from := |Matching(f, rows)|, if f.offset <= 0 then 0 else f.offset;
      var limit := if f.limit <= 0 || f.limit > 1000 then 100 else f.limit;
      && |answer| == (if n <= from then 0 else if n - from <= limit then n - from else limit)
      && forall sorted :: SortedMatch(f, rows, sorted) ==> answer == Stretch(sorted, from, limit)
    ensures NewestFirst(answer) && forall r :: r in answer ==> r in rows && Matches(f, r.rec)
    ensures forall i, j :: 0 <= i < j < |answer| ==> answer[i].rec.timestamp >= answer[j].rec.timestamp
  {
    var query, args := BuildQuery(f);
    answer := Evaluate(query, args, rows).value;
    SortedMatching(f, rows);
    ghost var sorted := Sort(Select(f, rows));
    ghost var from, limit := if f.offset <= 0 then 0 else f.offset, if f.limit <= 0 || f.limit > 1000 then 100 else f.limit;
    AnswerIsDetermined(f, rows, sorted);
    StretchIs(sorted, from, limit);
    forall other | SortedMatch(f, rows, other) ensures other == sorted {
      OnlySorted(f, rows, other);
    }
  }

  lemma SameRows(a: seq<Row>, b: seq<Row>)
    requires NewestFirst(a) && NewestFirst(b)
    requires forall r :: r in multiset(a) <==> r in b
    ensures multiset(a) == multiset(b)
  {
    OncePerRow(a);
    OncePerRow(b);
    assert forall r :: r in multiset(b) <==> r in b;
  }

  lemma {:induction false} OncePerRow(a: seq<Row>)
    requires NewestFirst(a)
    ensures forall r :: multiset(a)[r] == if r in a then 1 else 0
  {
    if a != [] {
      OncePerRow(a[1..]);
      assert a == [a[0]] + a[1..];
      assert a[0] !in a[1..];
    }
  }

  // ---------------------------------------------------------------- pages

  /** k times step. */
  function Start(step: nat, k: nat): nat { if k == 0 then 0 else Start(step, k - 1) + step }

  /** The pages at offsets 0, step, 2 * step and so on, k of them, one after the other. */
  function Pages(f: Filter, rows: seq<Row>, step: nat, k: nat): seq<Row> {
    if k == 0 then [] else
      Pages(f, rows, step, k - 1) + Answer(f.(limit := step, offset := Start(step, k - 1)), rows)
  }

  lemma {:induction false} SamePredicate(f: Filter, g: Filter, rows: seq<Row>)
    requires g == f.(limit := g.limit, offset := g.offset)
    ensures Select(g, rows) == Select(f, rows)
  {
    if rows != [] {
      SamePredicate(f, g, rows[1..]);
    }
  }

  ghost predicate Tiled(f: Filter, rows: seq<Row>, step: nat, k: nat) {
    var all := Sort(Select(f, rows));
    Pages(f, rows, step, k) == all[..Min(Start(step, k), |all|)]
  }

  lemma OnePage(f: Filter, rows: seq<Row>, step: nat, from: nat)
    requires 1 <= step <= 1000
    ensures Answer(f.(limit := step, offset := from), rows) == Page(Sort(Select(f, rows)), from, step)
  {
    SamePredicate(f, f.(limit := step, offset := from), rows);
  }

  lemma {:induction false} PagesTile(f: Filter, rows: seq<Row>, step: nat, k: nat)
    requires 1 <= step <= 1000
    ensures Tiled(f, rows, step, k)
  {
    var all := Sort(Select(f, rows));
    if k == 0 {
      assert all[..0] == [];
    } else {
      var from := Start(step, k - 1);
      PagesTile(f, rows, step, k - 1);
      OnePage(f, rows, step, from);
      NextPage(all, from, step);
    }
  }

  lemma NextPage(all: seq<Row>, from: nat, step: nat)
    ensures all[..Min(from, |all|)] + Page(all, from, step) == all[..Min(from + step, |all|)]
  {
  }

  /** A table of 101 rows, all alike but for their ids. */
  function Uniform(n: nat): (rows: seq<Row>)
    ensures |rows| == n && forall i :: 0 <= i < n ==> rows[i] == Row(i, Record(0, "INFO", "default", "", map[]))
  {
    seq(n, (i: nat) => Row(i, Record(0, "INFO", "default", "", map[])))
  }

  const ANY := Filter(None, None, "", "", "", 0, 0)

  lemma {:induction false} SelectAny(f: Filter, rows: seq<Row>)
    requires f == ANY.(limit := f.limit, offset := f.offset)
    ensures Select(f, rows) == rows
  {
    if rows != [] {
      SelectAny(f, rows[1..]);
    }
  }

  lemma LargePage(step: nat, offset: nat)
    requires step > 1000
    ensures var n := |Answer(ANY.(limit := step, offset := offset), Uniform(101))|;
      (offset == 0 ==> n == 100) && (offset > 100 ==> n == 0)
  {
    SelectAny(ANY.(limit := step, offset := offset), Uniform(101));
    SortedLength(Uniform(101));
  }

  lemma SortedLength(rows: seq<Row>)
    requires DistinctIds(rows)
    ensures |Sort(rows)| == |rows|
  {
    SortSorts(rows);
    assert |Sort(rows)| == |multiset(Sort(rows))|;
  }

  lemma LargeStepsSkip(step: nat)
    requires step > 1000
    ensures |Pages(ANY, Uniform(101), step, 2)| == 100
  {
    var rows := Uniform(101);
    LargePage(step, 0);
    LargePage(step, step);
    assert Start(step, 0) == 0 && Start(step, 1) == step;
    assert |Pages(ANY, rows, step, 1)| == |Pages(ANY, rows, step, 0)| + 100;
  }

  /**
    Stepping through the offsets 0, L, 2L, … with limit L shows every matching row once, for every filter,
    table and number of pages, if and only if L is at most 1000: a larger limit is silently taken as 100
    while the caller's offsets move on by L.
  */
  lemma PagesTileIff(step: nat)
    requires step >= 1
    ensures (forall f, rows, k: nat :: DistinctIds(rows) ==> Tiled(f, rows, step, k)) <==> step <= 1000
  {
    if step <= 1000 {
      forall f, rows, k: nat | DistinctIds(rows) ensures Tiled(f, rows, step, k) {
        PagesTile(f, rows, step, k);
      }
    } else {
      LargeStepsDoNotTile(step);
    }
  }

  lemma LargeStepsDoNotTile(step: nat)
    requires step > 1000
    ensures DistinctIds(Uniform(101)) && !Tiled(ANY, Uniform(101), step, 2)
  {
    var rows := Uniform(101);
    assert DistinctIds(rows);
    LargeStepsSkip(step);
    AllSorted(rows);
    assert Start(step, 2) == Start(step, 1) + step;
  }

  lemma AllSorted(rows: seq<Row>)
    requires DistinctIds(rows)
    ensures |Sort(Select(ANY, rows))| == |rows|
  {
    SelectAny(ANY, rows);
    SortedLength(rows);
  }

  // ---------------------------------------------------------------- finding what was written

  /** A caller that pages through the answer in steps comes across the row. */
  ghost predicate OnSomePage(f: Filter, rows: seq<Row>, step: nat, r: Row) {
    exists k: nat :: r in Pages(f, rows, step, k)
  }

  lemma {:induction false} StartReaches(step: nat, k: nat)
    requires step >= 1
    ensures Start(step, k) >= k
  {
    if k > 0 {
      StartReaches(step, k - 1);
    }
  }

  lemma SortedSelection(f: Filter, rows: seq<Row>, r: Row)
    requires DistinctIds(rows)
    ensures r in Sort(Select(f, rows)) <==> r in rows && Matches(f, r.rec)
  {
    var chosen := Select(f, rows);
    SelectIsFilter(f, rows);
    SortSorts(chosen);
    assert r in Sort(chosen) <==> r in multiset(Sort(chosen));
    assert r in chosen <==> r in multiset(chosen);
  }

  lemma PagedIff(f: Filter, rows: seq<Row>, step: nat, r: Row)
    requires DistinctIds(rows) && 1 <= step <= 1000
    ensures OnSomePage(f, rows, step, r) <==> r in rows && Matches(f, r.rec)
  {
    var all := Sort(Select(f, rows));
    SortedSelection(f, rows, r);
    forall k: nat ensures Pages(f, rows, step, k) == all[..Min(Start(step, k), |all|)] {
      PagesTile(f, rows, step, k);
    }
    StartReaches(step, |all|);
    assert Pages(f, rows, step, |all|) == all;
  }

  /**
    Over every run of the store, prunes and failed calls included: for every filter and every page size up
    to 1000, paging through the answer shows exactly the rows of the table that match.
  */
  lemma FoundIff(f: Filter, ops: seq<Op>, step: nat, r: Row)
    requires 1 <= step <= 1000
    ensures var rows := DoAll(Table([], 1), ops).rows;
      OnSomePage(f, rows, step, r) <==> r in rows && Matches(f, r.rec)
  {
    IdsStayOrdered(Table([], 1), ops);
    PagedIff(f, DoAll(Table([], 1), ops).rows, step, r);
  }

  /** How a row that holds `rec` answers to filters by one field. */
  ghost predicate FoundAs(rows: seq<Row>, step: nat, r: Row, f: Filter, expected: bool) {
    OnSomePage(f, rows, step, r) <==> expected
  }

  /**
    A row of the table that was written for an entry is found, on some page, by a level filter exactly when
    the filter's upper case is the stored level, so any case will do but padding only in what was written,
    and by a service filter exactly when it is the service as trimmed. In particular the trimmed level and
    service of the entry find it.
  */
  lemma WrittenIsFound(e: LogEntry, now: int, ops: seq<Op>, step: nat, r: Row, level: string, service: string)
    requires 1 <= step <= 1000 && r in DoAll(Table([], 1), ops).rows && r.rec == RecordOf(e, now)
    requires level != "" && service != ""
    ensures var rows := DoAll(Table([], 1), ops).rows;
      && FoundAs(rows, step, r, ANY.(level := level), ToUpper(level) == StoredLevel(e.level))
      && FoundAs(rows, step, r, ANY.(service := service), service == StoredService(e.service))
      && (TrimSpace(e.level) != "" ==> OnSomePage(ANY.(level := TrimSpace(e.level)), rows, step, r))
      && (TrimSpace(e.service) != "" ==> OnSomePage(ANY.(service := TrimSpace(e.service)), rows, step, r))
  {
    FoundIff(ANY.(level := level), ops, step, r);
    FoundIff(ANY.(service := service), ops, step, r);
    FoundIff(ANY.(level := TrimSpace(e.level)), ops, step, r);
    FoundIff(ANY.(service := TrimSpace(e.service)), ops, step, r);
  }

  /**
    Any case and any padding of a level will do: written as `before + core + after` with blanks around, the
    entry is found by every filter that is the core up to the case of its letters, and by no other.
  */
  lemma AnyCaseIsFound(e: LogEntry, now: int, ops: seq<Op>, step: nat, r: Row, before: string, core: string, after: string, level: string)
    requires 1 <= step <= 1000 && r in DoAll(Table([], 1), ops).rows && r.rec == RecordOf(e, now)
    requires e.level == before + core + after && Blank(before) && Blank(after)
    requires core != "" && !IsSpace(core[0]) && !IsSpace(core[|core| - 1]) && level != ""
    ensures FoundAs(DoAll(Table([], 1), ops).rows, step, r, ANY.(level := level), SameLetters(level, core))
  {
    TrimmedCore(before, core, after);
    UpperEqualIff(level, core);
    UpperLength(core);
    FoundIff(ANY.(level := level), ops, step, r);
  }

  /**
    By message it is found by exactly the texts without wildcards that occur in it, and by time by exactly
    the ranges that hold its own time, which is the time of the insert only for a stamp of exactly 0.
  */
  lemma WrittenIsFoundByText(e: LogEntry, now: int, ops: seq<Op>, step: nat, r: Row, text: string, from: int, to: int)
    requires 1 <= step <= 1000 && r in DoAll(Table([], 1), ops).rows && r.rec == RecordOf(e, now)
    requires text != "" && Plain(text)
    ensures var rows := DoAll(Table([], 1), ops).rows;
      && FoundAs(rows, step, r, ANY.(search := text), Occurs(text, e.message))
      && FoundAs(rows, step, r, ANY.(start := Some(from), end := Some(to)), from <= (if e.timestamp == 0 then now else e.timestamp) <= to)
    ensures r.rec.attributes == e.attributes
  {
    PlainSearch(text, e.message);
    FoundIff(ANY.(search := text), ops, step, r);
    FoundIff(ANY.(start := Some(from), end := Some(to)), ops, step, r);
  }
}
