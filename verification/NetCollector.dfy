/** Network throughput: rates of each interface between two snapshots, totals, and the collector's baseline. */
module NetCollector {
  import opened Rates
  import opened Names

  datatype Raw = Raw(
    rxBytes: u64, txBytes: u64, rxPackets: u64, txPackets: u64, rxErrors: u64, txErrors: u64, rxDrops: u64, txDrops: u64)

  datatype IfaceStats = IfaceStats(
    name: string, rxBytes: int, txBytes: int,
    rxBytesPerSec: real, txBytesPerSec: real, rxPacketsPerSec: real, txPacketsPerSec: real,
    rxErrors: int, txErrors: int, rxDrops: int, txDrops: int)

  datatype NetStats = NetStats(totalRx: real, totalTx: real, interfaces: seq<IfaceStats>)

  type Snapshot = map<string, Raw>

  /** The four counters that become rates. */
  datatype Counter = RxBytes | TxBytes | RxPackets | TxPackets

  function Get(w: Counter): Raw -> int {
    (r: Raw) =>
      match w
      case RxBytes => r.rxBytes
      case TxBytes => r.txBytes
      case RxPackets => r.rxPackets
      case TxPackets => r.txPackets
  }

  function RateIn(w: Counter): IfaceStats -> real {
    (s: IfaceStats) =>
      match w
      case RxBytes => s.rxBytesPerSec
      case TxBytes => s.txBytesPerSec
      case RxPackets => s.rxPacketsPerSec
      case TxPackets => s.txPacketsPerSec
  }

  predicate Counts(s: IfaceStats) { s.name != "lo" }

  /** The rate an interface must report: its counter's, if it was there before, and 0 if not. */
  function RateFor(prev: Snapshot, curr: Snapshot, name: string, w: Counter, seconds: real): real
    requires name in curr && seconds > 0.0
  {
    if name in prev then Rate(Get(w)(prev[name]), Get(w)(curr[name]), seconds) else 0.0
  }

  /** What the rate of an entry would be without rounding. */
  function ExactRate(prev: Snapshot, curr: Snapshot, w: Counter, seconds: real): IfaceStats -> real
    requires seconds > 0.0
  {
    (s: IfaceStats) =>
      if s.name in prev && s.name in curr && Get(w)(curr[s.name]) >= Get(w)(prev[s.name])
      then (Get(w)(curr[s.name]) - Get(w)(prev[s.name])) as real / seconds else 0.0
  }

  ghost predicate Describes(s: IfaceStats, prev: Snapshot, curr: Snapshot, seconds: real)
    requires seconds > 0.0
  {
    && s.name in curr
    && (var c := curr[s.name];
        && s.rxBytes == c.rxBytes && s.txBytes == c.txBytes
        && s.rxErrors == c.rxErrors && s.txErrors == c.txErrors && s.rxDrops == c.rxDrops && s.txDrops == c.txDrops)
    && forall w :: RateIn(w)(s) == RateFor(prev, curr, s.name, w, seconds)
  }

  function NamesOf(xs: seq<IfaceStats>): (ns: seq<string>)
    ensures |ns| == |xs|
  {
    seq(|xs|, i requires 0 <= i < |xs| => xs[i].name)
  }

  /** What `CalculateNetStats` promises: every interface once, in ascending order, and totals over all but the loopback. */
  ghost predicate IsStats(stats: NetStats, prev: Snapshot, curr: Snapshot, seconds: real)
    requires seconds > 0.0
  {
    && Lists(NamesOf(stats.interfaces), curr.Keys)
    && (forall i :: 0 <= i < |stats.interfaces| ==> Describes(stats.interfaces[i], prev, curr, seconds))
    && stats.totalRx == Total(stats.interfaces, Counts, RateIn(RxBytes))
    && stats.totalTx == Total(stats.interfaces, Counts, RateIn(TxBytes))
  }

  /** The entry of one interface, its rates filled in where the counters did not go back. */
  method IfaceStat(prev: Snapshot, curr: Snapshot, name: string, seconds: real) returns (s: IfaceStats)
    requires seconds > 0.0 && name in curr
    ensures s.name == name && Describes(s, prev, curr, seconds)
  {
    var c := curr[name];
    s := IfaceStats(name, c.rxBytes, c.txBytes, 0.0, 0.0, 0.0, 0.0, c.rxErrors, c.txErrors, c.rxDrops, c.txDrops);
    if name in prev {
      var p := prev[name];
      if c.rxBytes >= p.rxBytes {
        s := s.(rxBytesPerSec := Round2((c.rxBytes - p.rxBytes) as real / seconds));
      }
      if c.txBytes >= p.txBytes {
        s := s.(txBytesPerSec := Round2((c.txBytes - p.txBytes) as real / seconds));
      }
      if c.rxPackets >= p.rxPackets {
        s := s.(rxPacketsPerSec := Round2((c.rxPackets - p.rxPackets) as real / seconds));
      }
      if c.txPackets >= p.txPackets {
        s := s.(txPacketsPerSec := Round2((c.txPackets - p.txPackets) as real / seconds));
      }
    }
  }

  /** The loop has dealt with `done`, the first of the sorted names. */
  ghost predicate Partial(prev: Snapshot, curr: Snapshot, seconds: real, done: seq<string>, xs: seq<IfaceStats>)
    requires seconds > 0.0
  {
    NamesOf(xs) == done && forall k :: 0 <= k < |xs| ==> Describes(xs[k], prev, curr, seconds)
  }

  method CalculateNetStats(prev: Snapshot, curr: Snapshot, duration: real) returns (stats: NetStats)
    ensures IsStats(stats, prev, curr, Seconds(duration))
  {
    var seconds := Seconds(duration);
    var names := SortedKeys(curr.Keys);
    var interfaces: seq<IfaceStats> := [];
    var rx, tx := 0.0, 0.0;
    for i := 0 to |names|
      invariant Partial(prev, curr, seconds, names[..i], interfaces)
      invariant rx == Total(interfaces, Counts, RateIn(RxBytes)) && tx == Total(interfaces, Counts, RateIn(TxBytes))
    {
      assert names[i] in names;
      var s := IfaceStat(prev, curr, names[i], seconds);
      assert names[..i + 1] == names[..i] + [s.name];
      TotalSnoc(interfaces, s, Counts, RateIn(RxBytes));
      TotalSnoc(interfaces, s, Counts, RateIn(TxBytes));
      if names[i] != "lo" {
        rx, tx := rx + s.rxBytesPerSec, tx + s.txBytesPerSec;
      }
      interfaces := interfaces + [s];
    }
    assert names[..|names|] == names;
    Rounded(interfaces, prev, curr, seconds, RxBytes);
    Rounded(interfaces, prev, curr, seconds, TxBytes);
    stats := NetStats(Round2(rx), Round2(tx), interfaces);
  }

  /** The list of the first reading: counters, and no rates. */
  method FirstReading(curr: Snapshot) returns (stats: NetStats)
    ensures IsStats(stats, map[], curr, 1.0) && stats.totalRx == stats.totalTx == 0.0
  {
    var names := SortedKeys(curr.Keys);
    var interfaces: seq<IfaceStats> := [];
    for i := 0 to |names|
      invariant Partial(map[], curr, 1.0, names[..i], interfaces)
    {
      assert names[i] in names;
      var s := IfaceStat(map[], curr, names[i], 1.0);
      assert names[..i + 1] == names[..i] + [s.name];
      interfaces := interfaces + [s];
    }
    assert names[..|names|] == names;
    TotalOfZeros(interfaces, Counts, RateIn(RxBytes));
    TotalOfZeros(interfaces, Counts, RateIn(TxBytes));
    stats := NetStats(0.0, 0.0, interfaces);
  }

  /** The rounding of the totals at the end changes nothing: they are sums of rounded rates. */
  lemma Rounded(xs: seq<IfaceStats>, prev: Snapshot, curr: Snapshot, seconds: real, w: Counter)
    requires seconds > 0.0 && forall i :: 0 <= i < |xs| ==> Describes(xs[i], prev, curr, seconds)
    ensures var t := Total(xs, Counts, RateIn(w)); Round2(t) == t
  {
    forall i | 0 <= i < |xs| ensures Hundredths(RateIn(w)(xs[i])) {
      var name := xs[i].name;
      assert RateIn(w)(xs[i]) == RateFor(prev, curr, name, w, seconds);
      if name in prev {
        RateHundredths(Get(w)(prev[name]), Get(w)(curr[name]), seconds);
      }
    }
    TotalIsRounded(xs, Counts, RateIn(w));
  }

  // ---------------------------------------------------------------- results

  /** The order in which the map yields its keys does not show in the result. */
  lemma StatsUnique(a: NetStats, b: NetStats, prev: Snapshot, curr: Snapshot, seconds: real)
    requires seconds > 0.0 && IsStats(a, prev, curr, seconds) && IsStats(b, prev, curr, seconds)
    ensures a == b
  {
    ListsUnique(NamesOf(a.interfaces), NamesOf(b.interfaces), curr.Keys);
    forall i | 0 <= i < |a.interfaces| ensures a.interfaces[i] == b.interfaces[i] {
      assert NamesOf(a.interfaces)[i] == NamesOf(b.interfaces)[i];
      SameEntry(a.interfaces[i], b.interfaces[i], prev, curr, seconds);
    }
    assert a.interfaces == b.interfaces;
  }

  lemma SameEntry(x: IfaceStats, y: IfaceStats, prev: Snapshot, curr: Snapshot, seconds: real)
    requires seconds > 0.0 && x.name == y.name && Describes(x, prev, curr, seconds) && Describes(y, prev, curr, seconds)
    ensures x == y
  {
    assert RateIn(RxBytes)(x) == RateIn(RxBytes)(y) && RateIn(TxBytes)(x) == RateIn(TxBytes)(y);
    assert RateIn(RxPackets)(x) == RateIn(RxPackets)(y) && RateIn(TxPackets)(x) == RateIn(TxPackets)(y);
  }

  lemma EntryError(s: IfaceStats, prev: Snapshot, curr: Snapshot, seconds: real, w: Counter)
    requires seconds > 0.0 && Describes(s, prev, curr, seconds)
    ensures Abs(RateIn(w)(s) - ExactRate(prev, curr, w, seconds)(s)) <= 0.005
  {
    RoundError(ExactRate(prev, curr, w, seconds)(s));
  }

  /** A total is off the sum of the unrounded rates by at most 0.005 for each interface counted. */
  lemma TotalsError(stats: NetStats, prev: Snapshot, curr: Snapshot, seconds: real)
    requires seconds > 0.0 && IsStats(stats, prev, curr, seconds)
    ensures var n := Members(stats.interfaces, Counts) as real;
      && Abs(stats.totalRx - Total(stats.interfaces, Counts, ExactRate(prev, curr, RxBytes, seconds))) <= 0.005 * n
      && Abs(stats.totalTx - Total(stats.interfaces, Counts, ExactRate(prev, curr, TxBytes, seconds))) <= 0.005 * n
  {
    TotalErrorOf(stats.interfaces, prev, curr, seconds, RxBytes);
    TotalErrorOf(stats.interfaces, prev, curr, seconds, TxBytes);
  }

  lemma TotalErrorOf(xs: seq<IfaceStats>, prev: Snapshot, curr: Snapshot, seconds: real, w: Counter)
    requires seconds > 0.0 && forall i :: 0 <= i < |xs| ==> Describes(xs[i], prev, curr, seconds)
    ensures Abs(Total(xs, Counts, RateIn(w)) - Total(xs, Counts, ExactRate(prev, curr, w, seconds)))
      <= 0.005 * Members(xs, Counts) as real
  {
    forall i | 0 <= i < |xs| ensures Abs(RateIn(w)(xs[i]) - ExactRate(prev, curr, w, seconds)(xs[i])) <= 0.005 {
      EntryError(xs[i], prev, curr, seconds, w);
    }
    TotalError(xs, Counts, RateIn(w), ExactRate(prev, curr, w, seconds));
  }

  /** A rate on the fields: rounded growth per second, or 0 where the counter went back or is new. */
  ghost predicate RateOf(rate: real, known: bool, before: int, after: int, seconds: real)
    requires seconds > 0.0
  {
    if known && before <= after then Abs(rate - (after - before) as real / seconds) <= 0.005 else rate == 0.0
  }

  lemma RateIsOf(s: IfaceStats, prev: Snapshot, curr: Snapshot, seconds: real, w: Counter)
    requires seconds > 0.0 && Describes(s, prev, curr, seconds)
    ensures var p := if s.name in prev then prev[s.name] else curr[s.name];
      RateOf(RateIn(w)(s), s.name in prev, Get(w)(p), Get(w)(curr[s.name]), seconds)
  {
    EntryError(s, prev, curr, seconds, w);
  }

  /**
    Field by field: which counter feeds which rate. The time is the one between the readings, or one second
    when that is not positive.
  */
  lemma FieldsReported(stats: NetStats, prev: Snapshot, curr: Snapshot, duration: real, s: IfaceStats)
    requires IsStats(stats, prev, curr, Seconds(duration)) && s in stats.interfaces
    ensures s.name in curr
    ensures var c, known, seconds := curr[s.name], s.name in prev, if duration > 0.0 then duration else 1.0;
      var p := if known then prev[s.name] else c;
      && RateOf(s.rxBytesPerSec, known, p.rxBytes, c.rxBytes, seconds)
      && RateOf(s.txBytesPerSec, known, p.txBytes, c.txBytes, seconds)
      && RateOf(s.rxPacketsPerSec, known, p.rxPackets, c.rxPackets, seconds)
      && RateOf(s.txPacketsPerSec, known, p.txPackets, c.txPackets, seconds)
  {
    var seconds := Seconds(duration);
    assert Describes(s, prev, curr, seconds);
    RateIsOf(s, prev, curr, seconds, RxBytes);
    RateIsOf(s, prev, curr, seconds, TxBytes);
    RateIsOf(s, prev, curr, seconds, RxPackets);
    RateIsOf(s, prev, curr, seconds, TxPackets);
  }

  /** For an interface in both snapshots, the entry in the result reports the rate that telescopes. */
  lemma ReportedRate(b: Baseline<Snapshot>, o: Outcome<Snapshot>, stats: NetStats, s: IfaceStats, w: Counter)
    requires b.Last? && o.Reads? && IsStats(stats, b.snapshot, o.snapshot, Seconds(o.time - b.time))
    requires s in stats.interfaces && s.name in b.snapshot
    ensures RateIn(w)(s) == Reported(b, o, Track(s.name, Get(w)))
  {
    assert Describes(s, b.snapshot, o.snapshot, Seconds(o.time - b.time));
  }

  /** An interface of the snapshot has an entry. */
  lemma HasEntry(stats: NetStats, prev: Snapshot, curr: Snapshot, seconds: real, name: string) returns (i: nat)
    requires seconds > 0.0 && IsStats(stats, prev, curr, seconds) && name in curr
    ensures i < |stats.interfaces| && stats.interfaces[i].name == name
  {
    assert name in NamesOf(stats.interfaces);
    i :| i < |stats.interfaces| && NamesOf(stats.interfaces)[i] == name;
  }

  class NetCollector {
    var last: Baseline<Snapshot>

    constructor ()
      ensures last == Empty
    {
      last := Empty;
    }

    /** `Collect`: an error leaves the baseline alone; the first reading sets it and reports no rates. */
    method Collect(reading: Outcome<Snapshot>) returns (stats: NetStats, ok: bool)
      modifies this
      ensures last == Next(old(last), reading) && ok == reading.Reads?
      ensures ok && old(last).Last? ==>
        IsStats(stats, old(last).snapshot, reading.snapshot, Seconds(reading.time - old(last).time))
      ensures ok && old(last).Empty? ==> IsStats(stats, map[], reading.snapshot, 1.0) && stats.totalRx == stats.totalTx == 0.0
    {
      ok := reading.Reads?;
      stats := NetStats(0.0, 0.0, []);
      if ok {
        if last.Empty? {
          stats := FirstReading(reading.snapshot);
        } else {
          stats := CalculateNetStats(last.snapshot, reading.snapshot, reading.time - last.time);
        }
        last := Last(reading.time, reading.snapshot);
      }
    }

    /** What a reader of the reports makes of one call: the rate times the time since the previous reading. */
    method CollectArea(reading: Outcome<Snapshot>, name: string, w: Counter) returns (area: real)
      requires (last.Last? ==> name in last.snapshot) && (reading.Reads? ==> name in reading.snapshot)
      modifies this
      ensures last == Next(old(last), reading) && area == Area(old(last), reading, Track(name, Get(w)))
    {
      var before := last;
      var stats, ok := Collect(reading);
      area := 0.0;
      if ok && before.Last? {
        area := AreaReported(stats, before, reading, name, w);
      }
    }
  }

  /** Looks an interface up in the reported list. */
  method Find(stats: NetStats, ghost prev: Snapshot, ghost curr: Snapshot, ghost seconds: real, name: string) returns (s: IfaceStats)
    requires seconds > 0.0 && IsStats(stats, prev, curr, seconds) && name in curr
    ensures s in stats.interfaces && s.name == name
  {
    ghost var at := HasEntry(stats, prev, curr, seconds, name);
    var i := 0;
    while stats.interfaces[i].name != name
      invariant 0 <= i <= at
      decreases at - i
    {
      i := i + 1;
    }
    s := stats.interfaces[i];
  }

  method RateReported(stats: NetStats, b: Baseline<Snapshot>, o: Outcome<Snapshot>, name: string, w: Counter) returns (rate: real)
    requires b.Last? && o.Reads? && IsStats(stats, b.snapshot, o.snapshot, Seconds(o.time - b.time))
    requires name in b.snapshot && name in o.snapshot
    ensures rate == Reported(b, o, Track(name, Get(w)))
  {
    var s := Find(stats, b.snapshot, o.snapshot, Seconds(o.time - b.time), name);
    ReportedRate(b, o, stats, s, w);
    rate := RateIn(w)(s);
  }

  method AreaReported(stats: NetStats, b: Baseline<Snapshot>, o: Outcome<Snapshot>, name: string, w: Counter) returns (area: real)
    requires b.Last? && o.Reads? && IsStats(stats, b.snapshot, o.snapshot, Seconds(o.time - b.time))
    requires name in b.snapshot && name in o.snapshot
    ensures area == Area(b, o, Track(name, Get(w)))
  {
    var rate := RateReported(stats, b, o, name, w);
    area := rate * Interval(b, o);
  }

  /**
    What a reader of the reports of one interface adds up over a run of `Collect` calls on one collector, failed
    calls included, is the growth of the counter between the first and the last reading, within 0.005 for each
    second between them.
  */
  method AddUpReports(readings: seq<Outcome<Snapshot>>, name: string, w: Counter) returns (sum: real)
    requires Present(readings, name) && First(readings).Last? && Advances(Empty, readings, Track(name, Get(w)))
    ensures var first, last := First(readings), End(Empty, readings);
      && last.Last? && name in first.snapshot && name in last.snapshot
      && Abs(sum - (Get(w)(last.snapshot[name]) - Get(w)(first.snapshot[name])) as real) <= 0.005 * (last.time - first.time)
  {
    DeviceTelescope(readings, name, Get(w));
    sum := SumOfAreas(readings, name, w);
  }

  method SumOfAreas(readings: seq<Outcome<Snapshot>>, name: string, w: Counter) returns (sum: real)
    requires Present(readings, name)
    ensures sum == Integral(Empty, readings, Track(name, Get(w)))
  {
    var c := new NetCollector();
    sum := 0.0;
    for k := 0 to |readings|
      invariant c.last == End(Empty, readings[..k])
      invariant sum == Integral(Empty, readings[..k], Track(name, Get(w)))
    {
      assert readings[..k + 1] == readings[..k] + [readings[k]];
      IntegralSnoc(Empty, readings[..k], readings[k], Track(name, Get(w)));
      EndIsARead(readings[..k], name);
      var area := c.CollectArea(readings[k], name, w);
      sum := sum + area;
    }
    assert readings[..|readings|] == readings;
  }
}
