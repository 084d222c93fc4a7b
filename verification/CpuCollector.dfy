/** CPU usage per core and in all: the order of the cores, and the collector's baseline. */
module CpuCollector {
  import opened LogEntries
  import opened Text
  import opened Rates
  import opened CpuUsage

  type Snapshot = map<string, Ticks>

  const AGGREGATE := "cpu"

  // ---------------------------------------------------------------- core numbers

  predicate Digits(t: string) { t != "" && forall i :: 0 <= i < |t| ==> Digit(t[i]) }

  function Decimal(t: string): nat
    requires forall i :: 0 <= i < |t| ==> Digit(t[i])
  {
    if t == "" then 0 else
      assert Digit(t[|t| - 1]);
      Decimal(t[..|t| - 1]) * 10 + (t[|t| - 1] - '0') as nat
  }

  const MAX_INT: int := 0x7fff_ffff_ffff_ffff

  /** `strconv.Atoi`: an optional sign, digits, and the range of a 64-bit integer. */
  function Atoi(t: string): Option<int> {
    var digits := if t != "" && (t[0] == '+' || t[0] == '-') then t[1..] else t;
    if !Digits(digits) then None
    else
      var d: int := Decimal(digits);
      var v := if t[0] == '-' then -d else d;
      if -MAX_INT - 1 <= v <= MAX_INT then Some(v) else None
  }

  function CoreIndex(id: string): int
    requires |id| >= 3
  {
    if id == AGGREGATE then -1
    else if Atoi(id[3..]).Some? then Atoi(id[3..]).value else 999999
  }

  /** A core's name as the kernel writes it: no sign, no leading zero. */
  predicate Canonical(id: string) {
    && |id| > 3 && id[..3] == AGGREGATE && Digits(id[3..]) && Decimal(id[3..]) <= MAX_INT
    && (id[3] == '0' ==> |id| == 4)
  }

  lemma {:induction false} NoLeadingZero(t: string)
    requires Digits(t) && t[0] != '0'
    ensures Decimal(t) >= 1 && (|t| > 1 ==> Decimal(t) >= 10)
  {
    if |t| > 1 {
      NoLeadingZero(t[..|t| - 1]);
    } else {
      assert Decimal(t[..0]) == 0;
    }
  }

  /** Without leading zeros the value determines the digits. */
  lemma {:induction false} DecimalInjective(a: string, b: string)
    requires Digits(a) && Digits(b) && Decimal(a) == Decimal(b)
    requires (a[0] == '0' ==> |a| == 1) && (b[0] == '0' ==> |b| == 1)
    ensures a == b
    decreases |a|
  {
    var m, n := |a| - 1, |b| - 1;
    var x, y := (a[m] - '0') as nat, (b[n] - '0') as nat;
    assert Decimal(a) == Decimal(a[..m]) * 10 + x && Decimal(b) == Decimal(b[..n]) * 10 + y;
    assert x == y && Decimal(a[..m]) == Decimal(b[..n]);
    if m > 0 { NoLeadingZero(a[..m]); }
    if n > 0 { NoLeadingZero(b[..n]); }
    if m > 0 && n > 0 {
      DecimalInjective(a[..m], b[..n]);
    }
    assert a == a[..m] + [a[m]] && b == b[..n] + [b[n]];
  }

  lemma IndexInjective(a: string, b: string)
    requires Canonical(a) && Canonical(b) && CoreIndex(a) == CoreIndex(b)
    ensures a == b
  {
    DecimalInjective(a[3..], b[3..]);
    assert a == a[..3] + a[3..] && b == b[..3] + b[3..];
  }

  lemma {:induction false} DecimalBound(t: string)
    requires Digits(t)
    ensures Decimal(t) < Power10(|t|) && (t[0] != '0' ==> Power10(|t| - 1) <= Decimal(t))
  {
    var n := |t| - 1;
    assert Digit(t[n]);
    if n > 0 {
      DecimalBound(t[..n]);
    } else {
      assert Decimal(t[..0]) == 0;
    }
  }

  function Power10(n: nat): (p: nat)
    ensures p >= 1
  {
    if n == 0 then 1 else 10 * Power10(n - 1)
  }

  lemma {:induction false} PowerGrows(m: nat, n: nat)
    requires m <= n
    ensures Power10(m) <= Power10(n)
  {
    if m < n {
      PowerGrows(m, n - 1);
    }
  }

  /** Of two numbers with equally many digits the smaller is the one whose first different digit is smaller. */
  lemma {:induction false} DecimalOrder(a: string, b: string, k: nat)
    requires |a| == |b| && Digits(a) && Digits(b) && k < |a| && a[..k] == b[..k] && a[k] < b[k]
    ensures Decimal(a) < Decimal(b)
  {
    var n := |a| - 1;
    assert Digit(a[n]) && Digit(b[n]);
    if k < n {
      assert a[..n][..k] == b[..n][..k];
      DecimalOrder(a[..n], b[..n], k);
    } else {
      assert a[..n] == b[..n];
    }
  }

  /**
    The kernel's names come in the order of their numbers as read by people: fewer digits first, and among
    equally many the one with the smaller first different digit.
  */
  lemma CoresInOrder(a: string, b: string, k: nat)
    requires Canonical(a) && Canonical(b)
    requires |a| < |b| || (|a| == |b| && 3 <= k < |a| && a[..k] == b[..k] && a[k] < b[k])
    ensures CoreIndex(a) < CoreIndex(b)
  {
    var x, y := a[3..], b[3..];
    if |a| == |b| {
      assert x[..k - 3] == a[..k][3..] && y[..k - 3] == b[..k][3..];
      DecimalOrder(x, y, k - 3);
    } else {
      DecimalBound(x);
      DecimalBound(y);
      PowerGrows(|x|, |y| - 1);
    }
  }

  // ---------------------------------------------------------------- the sorted cores

  predicate Labels(ids: seq<string>) { forall i :: 0 <= i < |ids| ==> |ids[i]| >= 3 }

  /** In order of their numbers; `sort.Slice` promises nothing about equal ones. */
  predicate Ascending(ids: seq<string>)
    requires Labels(ids)
  {
    forall i, j :: 0 <= i < j < |ids| ==> CoreIndex(ids[i]) <= CoreIndex(ids[j])
  }

  predicate Distinct(ids: seq<string>) { forall i, j :: 0 <= i < j < |ids| ==> ids[i] != ids[j] }

  /** `ids` lists every core of the reading once, in order. */
  ghost predicate ListsCores(ids: seq<string>, keys: set<string>) {
    Labels(ids) && Distinct(ids) && Ascending(ids) && forall id :: id in ids <==> id in keys && id != AGGREGATE
  }

  predicate Tied(a: string, b: string) {
    a != AGGREGATE && b != AGGREGATE && |a| >= 3 && |b| >= 3 && CoreIndex(a) == CoreIndex(b)
  }

  /** No two cores have the same number. */
  ghost predicate NumbersDiffer(keys: set<string>) {
    forall a, b :: a in keys && b in keys && Tied(a, b) ==> a == b
  }

  lemma FirstHasLeastIndex(ids: seq<string>, id: string)
    requires Labels(ids) && Ascending(ids) && id in ids
    ensures CoreIndex(ids[0]) <= CoreIndex(id)
  {
  }

  lemma SomeCore(ids: seq<string>, keys: set<string>)
    requires ListsCores(ids, keys)
    ensures ids != [] <==> exists id :: id in keys && id != AGGREGATE
  {
    if ids != [] {
      assert ids[0] in ids;
    }
  }

  lemma DropFirst(ids: seq<string>, keys: set<string>)
    requires ListsCores(ids, keys) && ids != []
    ensures ListsCores(ids[1..], keys - {ids[0]})
  {
    assert ids == [ids[0]] + ids[1..];
    assert ids[0] !in ids[1..];
  }

  lemma SameFirst(a: seq<string>, b: seq<string>, keys: set<string>)
    requires ListsCores(a, keys) && ListsCores(b, keys) && a != [] && b != []
    requires NumbersDiffer(keys)
    ensures a[0] == b[0]
  {
    assert a[0] in b && b[0] in a;
    FirstHasLeastIndex(a, b[0]);
    FirstHasLeastIndex(b, a[0]);
  }

  /** With different numbers the order is fixed, whatever order the map yields its keys in. */
  lemma {:induction false} CoresUnique(a: seq<string>, b: seq<string>, keys: set<string>)
    requires ListsCores(a, keys) && ListsCores(b, keys)
    requires NumbersDiffer(keys)
    ensures a == b
    decreases |a|
  {
    SomeCore(a, keys);
    SomeCore(b, keys);
    if a != [] {
      SameFirst(a, b, keys);
      DropFirst(a, keys);
      DropFirst(b, keys);
      CoresUnique(a[1..], b[1..], keys - {a[0]});
      assert a == [a[0]] + a[1..] && b == [b[0]] + b[1..];
    }
  }

  lemma KernelNamesDiffer(keys: set<string>)
    requires forall id :: id in keys && id != AGGREGATE ==> Canonical(id)
    ensures NumbersDiffer(keys)
  {
    forall a, b | a in keys && b in keys && Tied(a, b) ensures a == b {
      IndexInjective(a, b);
    }
  }

  function Swapped(ids: seq<string>, i: nat): (r: seq<string>)
    requires i + 1 < |ids|
    ensures |r| == |ids|
  {
    ids[i := ids[i + 1]][i + 1 := ids[i]]
  }

  /** Two tied neighbours may change places. */
  lemma SwapKeeps(ids: seq<string>, keys: set<string>, i: nat)
    requires ListsCores(ids, keys) && i + 1 < |ids| && CoreIndex(ids[i]) == CoreIndex(ids[i + 1])
    ensures ListsCores(Swapped(ids, i), keys) && Swapped(ids, i) != ids
  {
    var r := Swapped(ids, i);
    assert forall k :: 0 <= k < |ids| ==> r[k] == ids[if k == i then i + 1 else if k == i + 1 then i else k];
    assert r[i] == ids[i + 1] && r[i + 1] == ids[i];
    SwapMembers(ids, i);
  }

  lemma SwapMembers(ids: seq<string>, i: nat)
    requires i + 1 < |ids|
    ensures forall id :: id in Swapped(ids, i) <==> id in ids
  {
    var r := Swapped(ids, i);
    forall id | id in ids ensures id in r {
      var k :| 0 <= k < |ids| && ids[k] == id;
      assert r[if k == i then i + 1 else if k == i + 1 then i else k] == id;
    }
  }

  /** Whoever lies between two tied cores is tied with them. */
  lemma TiedNeighbours(ids: seq<string>, j: nat, k: nat) returns (i: nat)
    requires Labels(ids) && Ascending(ids) && j < |ids| && k < |ids| && j != k && CoreIndex(ids[j]) == CoreIndex(ids[k])
    ensures i + 1 < |ids| && CoreIndex(ids[i]) == CoreIndex(ids[i + 1])
  {
    i := if j < k then j else k;
    Between(ids, i, if j < k then k else j);
  }

  lemma Between(ids: seq<string>, j: nat, k: nat)
    requires Labels(ids) && Ascending(ids) && j < k < |ids| && CoreIndex(ids[j]) == CoreIndex(ids[k])
    ensures CoreIndex(ids[j]) == CoreIndex(ids[j + 1])
  {
    assert CoreIndex(ids[j]) <= CoreIndex(ids[j + 1]);
    if j + 1 < k {
      assert CoreIndex(ids[j + 1]) <= CoreIndex(ids[k]);
    }
  }

  ghost predicate OnlyListing(ids: seq<string>, keys: set<string>) {
    forall other :: ListsCores(other, keys) ==> other == ids
  }

  /**
    The order of the cores does not depend on the order of the map if and only if no two of their labels
    have the same number, as `cpu1` and `cpu01` do.
  */
  lemma CoreOrderIff(ids: seq<string>, keys: set<string>)
    requires ListsCores(ids, keys)
    ensures OnlyListing(ids, keys) <==> NumbersDiffer(keys)
  {
    if NumbersDiffer(keys) {
      forall other | ListsCores(other, keys) ensures other == ids {
        CoresUnique(other, ids, keys);
      }
    } else {
      var a, b :| a in keys && b in keys && Tied(a, b) && a != b;
      assert a in ids && b in ids;
      var j :| 0 <= j < |ids| && ids[j] == a;
      var k :| 0 <= k < |ids| && ids[k] == b;
      var i := TiedNeighbours(ids, j, k);
      SwapKeeps(ids, keys, i);
    }
  }

  method Place(ids: seq<string>, id: string) returns (r: seq<string>)
    requires Labels(ids) && Ascending(ids) && Distinct(ids) && |id| >= 3 && id !in ids
    ensures Labels(r) && Ascending(r) && Distinct(r) && forall x :: x in r <==> x in ids || x == id
  {
    var i := |ids|;
    while i > 0 && CoreIndex(id) < CoreIndex(ids[i - 1])
      invariant 0 <= i <= |ids|
      invariant forall k :: i <= k < |ids| ==> CoreIndex(id) < CoreIndex(ids[k])
    {
      i := i - 1;
    }
    r := At(ids, id, i);
    Placed(ids, id, i);
  }

  function At(ids: seq<string>, id: string, i: nat): (r: seq<string>)
    requires i <= |ids|
    ensures |r| == |ids| + 1
    ensures forall k :: 0 <= k < |r| ==> r[k] == if k < i then ids[k] else if k == i then id else ids[k - 1]
  {
    ids[..i] + [id] + ids[i..]
  }

  lemma Placed(ids: seq<string>, id: string, i: nat)
    requires Labels(ids) && Ascending(ids) && Distinct(ids) && |id| >= 3 && id !in ids && i <= |ids|
    requires i > 0 ==> CoreIndex(ids[i - 1]) <= CoreIndex(id)
    requires forall k :: i <= k < |ids| ==> CoreIndex(id) < CoreIndex(ids[k])
    ensures var r := At(ids, id, i);
      Labels(r) && Ascending(r) && Distinct(r) && forall x :: x in r <==> x in ids || x == id
  {
    OrderPlaced(ids, id, i);
    Members(ids, id, i);
  }

  lemma Members(ids: seq<string>, id: string, i: nat)
    requires i <= |ids|
    ensures forall x :: x in At(ids, id, i) <==> x in ids || x == id
  {
    assert ids == ids[..i] + ids[i..];
  }

  lemma OrderPlaced(ids: seq<string>, id: string, i: nat)
    requires Labels(ids) && Ascending(ids) && |id| >= 3 && i <= |ids|
    requires i > 0 ==> CoreIndex(ids[i - 1]) <= CoreIndex(id)
    requires forall k :: i <= k < |ids| ==> CoreIndex(id) < CoreIndex(ids[k])
    ensures Labels(At(ids, id, i)) && Ascending(At(ids, id, i))
  {
    assert forall k :: 0 <= k < i ==> CoreIndex(ids[k]) <= CoreIndex(id);
  }

  method SortedCores(curr: Snapshot) returns (ids: seq<string>)
    requires forall id :: id in curr ==> |id| >= 3
    ensures ListsCores(ids, curr.Keys)
  {
    ids := [];
    var todo := curr.Keys - {AGGREGATE};
    while todo != {}
      invariant todo <= curr.Keys - {AGGREGATE}
      invariant Labels(ids) && Ascending(ids) && Distinct(ids)
      invariant forall id :: id in ids <==> id in curr.Keys - {AGGREGATE} - todo
      decreases |todo|
    {
      var id :| id in todo;
      ids := Place(ids, id);
      todo := todo - {id};
    }
  }

  // ---------------------------------------------------------------- usage

  datatype CPUStats = CPUStats(total: real, user: real, system: real, iowait: real, cores: seq<Usage>)

  /** The usage of the cores that both readings have, in the order of `ids`. */
  function Usages(prev: Snapshot, curr: Snapshot, ids: seq<string>): seq<Usage>
    requires forall i :: 0 <= i < |ids| ==> ids[i] in curr
  {
    if ids == [] then [] else
      var n := |ids| - 1;
      Usages(prev, curr, ids[..n]) + if ids[n] in prev then [CalculateDelta(prev[ids[n]], curr[ids[n]])] else []
  }

  /** What `CalculateCPUUsage` promises: the aggregate when both readings have it, and one entry for each common core. */
  ghost predicate IsStats(stats: CPUStats, prev: Snapshot, curr: Snapshot) {
    exists ids :: IsStatsOf(stats, prev, curr, ids)
  }

  ghost predicate IsStatsOf(stats: CPUStats, prev: Snapshot, curr: Snapshot, ids: seq<string>) {
    && ListsCores(ids, curr.Keys)
    && stats.cores == Usages(prev, curr, ids)
    && (if AGGREGATE in curr && AGGREGATE in prev then
          var u := CalculateDelta(prev[AGGREGATE], curr[AGGREGATE]);
          stats.total == u.total && stats.user == u.user && stats.system == u.system && stats.iowait == u.iowait
        else
          stats.total == stats.user == stats.system == stats.iowait == 0.0)
  }

  lemma StatsUnique(a: CPUStats, b: CPUStats, prev: Snapshot, curr: Snapshot)
    requires IsStats(a, prev, curr) && IsStats(b, prev, curr)
    requires NumbersDiffer(curr.Keys)
    ensures a == b
  {
    var ids :| IsStatsOf(a, prev, curr, ids);
    var ids' :| IsStatsOf(b, prev, curr, ids');
    CoresUnique(ids, ids', curr.Keys);
  }

  // ---------------------------------------------------------------- what the entries say

  /** Every reading is filed under its own label. */
  ghost predicate Labelled(m: Snapshot) { forall id :: id in m ==> m[id].id == id }

  function IdsOf(us: seq<Usage>): (ids: seq<string>)
    ensures |ids| == |us|
  {
    seq(|us|, i requires 0 <= i < |us| => us[i].id)
  }

  /** The labels of a list that the earlier reading has too, in order. */
  function Common(prev: Snapshot, ids: seq<string>): seq<string> {
    if ids == [] then [] else
      var n := |ids| - 1;
      Common(prev, ids[..n]) + if ids[n] in prev then [ids[n]] else []
  }

  lemma {:induction false} CommonMembers(prev: Snapshot, ids: seq<string>)
    ensures forall id :: id in Common(prev, ids) <==> id in ids && id in prev
  {
    if ids != [] {
      var n := |ids| - 1;
      CommonMembers(prev, ids[..n]);
      assert ids == ids[..n] + [ids[n]];
    }
  }

  lemma {:induction false} CommonOrder(prev: Snapshot, ids: seq<string>)
    requires Labels(ids) && Ascending(ids) && Distinct(ids)
    ensures var cs := Common(prev, ids); Labels(cs) && Ascending(cs) && Distinct(cs)
  {
    if ids != [] {
      var n := |ids| - 1;
      CommonOrder(prev, ids[..n]);
      CommonMembers(prev, ids[..n]);
      LastOfList(ids);
      if ids[n] in prev {
        AppendKeepsOrder(Common(prev, ids[..n]), ids[n]);
      }
    }
  }

  lemma AppendKeepsOrder(ids: seq<string>, id: string)
    requires Labels(ids) && Ascending(ids) && Distinct(ids) && |id| >= 3
    requires forall x :: x in ids ==> x != id && |x| >= 3 && CoreIndex(x) <= CoreIndex(id)
    ensures var more := ids + [id]; Labels(more) && Ascending(more) && Distinct(more)
  {
    var more := ids + [id];
    forall i | 0 <= i < |ids| ensures more[i] in ids {
    }
  }

  lemma LastOfList(ids: seq<string>)
    requires Labels(ids) && Ascending(ids) && Distinct(ids) && ids != []
    ensures var n := |ids| - 1;
      && ids == ids[..n] + [ids[n]]
      && forall id :: id in ids[..n] ==> id != ids[n] && |id| >= 3 && CoreIndex(id) <= CoreIndex(ids[n])
  {
  }

  lemma {:induction false} UsagesAre(prev: Snapshot, curr: Snapshot, ids: seq<string>)
    requires (forall i :: 0 <= i < |ids| ==> ids[i] in curr) && Labelled(curr)
    ensures IdsOf(Usages(prev, curr, ids)) == Common(prev, ids)
    ensures forall u :: u in Usages(prev, curr, ids) ==> u.id in prev && u.id in curr && u == CalculateDelta(prev[u.id], curr[u.id])
  {
    if ids != [] {
      var n := |ids| - 1;
      UsagesAre(prev, curr, ids[..n]);
      var us := Usages(prev, curr, ids[..n]);
      if ids[n] in prev {
        assert IdsOf(us + [CalculateDelta(prev[ids[n]], curr[ids[n]])]) == IdsOf(us) + [ids[n]];
      }
    }
  }

  /** Each percentage is the share of its own counter in the ticks that went by, within 0.005. */
  ghost predicate Measures(u: Usage, p: Ticks, c: Ticks)
    requires p.Total() < c.Total()
  {
    var whole := c.Total() - p.Total();
    && Abs(u.total - Share(c.NonIdleTotal() - p.NonIdleTotal(), whole)) <= 0.005
    && Abs(u.user - Share(c.user - p.user, whole)) <= 0.005
    && Abs(u.system - Share(c.system - p.system, whole)) <= 0.005
    && Abs(u.iowait - Share(c.iowait - p.iowait, whole)) <= 0.005
    && Abs(u.steal - Share(c.steal - p.steal, whole)) <= 0.005
  }

  /**
    Which cores a report has: one entry for each label in both readings except the aggregate, in the order
    of the numbers.
  */
  lemma CoresListed(stats: CPUStats, prev: Snapshot, curr: Snapshot)
    requires IsStats(stats, prev, curr) && Labelled(curr)
    ensures var ids := IdsOf(stats.cores);
      && Labels(ids) && Distinct(ids) && Ascending(ids)
      && forall id :: id in ids <==> id in prev && id in curr && id != "cpu"
  {
    var ids :| IsStatsOf(stats, prev, curr, ids);
    ListedInReading(ids, curr);
    UsagesAre(prev, curr, ids);
    CommonMembers(prev, ids);
    CommonOrder(prev, ids);
  }

  lemma ListedInReading(ids: seq<string>, curr: Snapshot)
    requires ListsCores(ids, curr.Keys)
    ensures forall i :: 0 <= i < |ids| ==> ids[i] in curr
  {
    forall i | 0 <= i < |ids| ensures ids[i] in curr {
      assert ids[i] in ids;
    }
  }

  /**
    What it says of each: when no counter went back and none wraps, the shares of that core's own counters
    from the earlier to the later reading, and nothing but zeros when no tick went by.
  */
  lemma CoresReported(stats: CPUStats, prev: Snapshot, curr: Snapshot, u: Usage)
    requires IsStats(stats, prev, curr) && Labelled(curr) && u in stats.cores
    ensures u.id in prev && u.id in curr
    ensures var p, c := prev[u.id], curr[u.id];
      && (Monotone(p, c) && c.Fits() && p.Total() < c.Total() ==> Measures(u, p, c))
      && (c.Total() <= p.Total() ==> u == Usage(u.id, 0.0, 0.0, 0.0, 0.0, 0.0))
  {
    EntryIsDelta(stats, prev, curr, u);
    DeltaMeasures(prev[u.id], curr[u.id]);
  }

  lemma EntryIsDelta(stats: CPUStats, prev: Snapshot, curr: Snapshot, u: Usage)
    requires IsStats(stats, prev, curr) && Labelled(curr) && u in stats.cores
    ensures u.id in prev && u.id in curr && u == CalculateDelta(prev[u.id], curr[u.id])
  {
    var ids :| IsStatsOf(stats, prev, curr, ids);
    ListedInReading(ids, curr);
    UsagesAre(prev, curr, ids);
  }

  lemma DeltaMeasures(p: Ticks, c: Ticks)
    ensures Monotone(p, c) && c.Fits() && p.Total() < c.Total() ==> Measures(CalculateDelta(p, c), p, c)
    ensures c.Total() <= p.Total() ==> CalculateDelta(p, c) == Usage(c.id, 0.0, 0.0, 0.0, 0.0, 0.0)
  {
    if Monotone(p, c) && c.Fits() && p.Total() < c.Total() {
      SharesAreClose(p, c);
    }
  }

  /** The same of the totals: they are the aggregate's own shares. */
  lemma AggregateReported(stats: CPUStats, prev: Snapshot, curr: Snapshot)
    requires IsStats(stats, prev, curr) && "cpu" in prev && "cpu" in curr
    ensures var p, c, whole := prev["cpu"], curr["cpu"], curr["cpu"].Total() - prev["cpu"].Total();
      Monotone(p, c) && c.Fits() && whole > 0 ==>
        && Abs(stats.total - Share(c.NonIdleTotal() - p.NonIdleTotal(), whole)) <= 0.005
        && Abs(stats.user - Share(c.user - p.user, whole)) <= 0.005
        && Abs(stats.system - Share(c.system - p.system, whole)) <= 0.005
        && Abs(stats.iowait - Share(c.iowait - p.iowait, whole)) <= 0.005
  {
    DeltaMeasures(prev["cpu"], curr["cpu"]);
  }

  predicate InRange(u: Usage) {
    && 0.0 <= u.total <= 100.0 && 0.0 <= u.user <= 100.0 && 0.0 <= u.system <= 100.0
    && 0.0 <= u.iowait <= 100.0 && 0.0 <= u.steal <= 100.0
  }

  lemma {:induction false} UsagesInRange(prev: Snapshot, curr: Snapshot, ids: seq<string>)
    requires forall i :: 0 <= i < |ids| ==> ids[i] in curr
    ensures forall k :: 0 <= k < |Usages(prev, curr, ids)| ==> InRange(Usages(prev, curr, ids)[k])
  {
    if ids != [] {
      var n := |ids| - 1;
      UsagesInRange(prev, curr, ids[..n]);
      if ids[n] in prev {
        PercentagesInRange(prev[ids[n]], curr[ids[n]]);
      }
    }
  }

  method CoreUsages(prev: Snapshot, curr: Snapshot, coreIDs: seq<string>) returns (cores: seq<Usage>)
    requires forall i :: 0 <= i < |coreIDs| ==> coreIDs[i] in curr
    ensures cores == Usages(prev, curr, coreIDs)
  {
    cores := [];
    for i := 0 to |coreIDs|
      invariant cores == Usages(prev, curr, coreIDs[..i])
    {
      assert coreIDs[..i + 1][..i] == coreIDs[..i];
      var id := coreIDs[i];
      if id in prev {
        cores := cores + [CalculateDelta(prev[id], curr[id])];
      }
    }
    assert coreIDs[..|coreIDs|] == coreIDs;
  }

  method CalculateCPUUsage(prev: Snapshot, curr: Snapshot) returns (stats: CPUStats)
    requires forall id :: id in curr ==> |id| >= 3
    ensures IsStats(stats, prev, curr)
  {
    stats := CPUStats(0.0, 0.0, 0.0, 0.0, []);
    if AGGREGATE in curr && AGGREGATE in prev {
      var u := CalculateDelta(prev[AGGREGATE], curr[AGGREGATE]);
      stats := CPUStats(u.total, u.user, u.system, u.iowait, []);
    }
    var coreIDs := SortedCores(curr);
    var cores := CoreUsages(prev, curr, coreIDs);
    stats := stats.(cores := cores);
    assert IsStatsOf(stats, prev, curr, coreIDs);
  }

  function AllIdle(ids: seq<string>): CPUStats {
    CPUStats(0.0, 0.0, 0.0, 0.0, seq(|ids|, i requires 0 <= i < |ids| => Usage(ids[i], 0.0, 0.0, 0.0, 0.0, 0.0)))
  }

  class CPUCollector {
    var last: Baseline<Snapshot>

    constructor ()
      ensures last == Empty
    {
      last := Empty;
    }

    /**
      `Collect`: an error leaves the baseline alone; the first reading sets it and lists the cores with no
      usage; every later one is measured against the reading before it.
    */
    method Collect(reading: Outcome<Snapshot>) returns (stats: CPUStats, ok: bool)
      requires reading.Reads? ==> forall id :: id in reading.snapshot ==> |id| >= 3
      modifies this
      ensures last == Next(old(last), reading) && ok == reading.Reads?
      ensures ok && old(last).Last? ==> IsStats(stats, old(last).snapshot, reading.snapshot)
      ensures ok && old(last).Empty? ==> exists ids :: ListsCores(ids, reading.snapshot.Keys) && stats == AllIdle(ids)
    {
      stats, ok := AllIdle([]), reading.Reads?;
      if !ok {
        return;
      }
      if last.Empty? {
        var coreIDs := SortedCores(reading.snapshot);
        stats := AllIdle(coreIDs);
      } else {
        stats := CalculateCPUUsage(last.snapshot, reading.snapshot);
      }
      last := Last(reading.time, reading.snapshot);
    }
  }
}
