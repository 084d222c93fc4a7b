/** Disk throughput: which devices count as whole disks, sectors as 64-bit bytes, rates, totals, the baseline. */
module DiskCollector {
  import opened Rates
  import opened Names
  import opened Text

  // ---------------------------------------------------------------- whole disks and partitions

  predicate HasPrefix(s: string, p: string) { p <= s }

  /** `sdX`, `vdX`, `hdX`, `xvdX`: the first prefix that fits decides. */
  predicate LettersAfter(name: string, prefixes: seq<string>) {
    prefixes != [] &&
    if HasPrefix(name, prefixes[0])
    then |name| == |prefixes[0]| + 1 && 'a' <= name[|prefixes[0]|] <= 'z'
    else LettersAfter(name, prefixes[1..])
  }

  const PREFIXES := ["sd", "vd", "hd", "xvd"]

  predicate Numbered(name: string) { HasPrefix(name, "nvme") || HasPrefix(name, "mmcblk") }

  predicate IsPrimaryDisk(name: string) {
    if Numbered(name) then 'p' !in name else LettersAfter(name, PREFIXES)
  }

  /** The kernel's name of a partition: a `p` keeps a disk name that ends in a digit apart from the number. */
  function PartitionName(disk: string, number: string): string
    requires disk != ""
  {
    if Digit(disk[|disk| - 1]) then disk + "p" + number else disk + number
  }

  /** One letter after the prefix and nothing else: whatever is appended, the longer name is refused. */
  lemma {:induction false} LongerIsRefused(name: string, extra: string, prefixes: seq<string>)
    requires LettersAfter(name, prefixes) && extra != ""
    requires forall i :: 0 <= i < |prefixes| ==> 2 <= |prefixes[i]| <= 3 && prefixes[i][0] in "svhx"
    ensures !LettersAfter(name + extra, prefixes) && |name| >= 3 && name[0] in "svhx"
  {
    var p := prefixes[0];
    if HasPrefix(name, p) {
      assert p[0] == name[0];
      assert HasPrefix(name + extra, p) by { assert (name + extra)[..|p|] == name[..|p|]; }
    } else {
      LongerIsRefused(name, extra, prefixes[1..]);
      assert (name + extra)[..|p|] == name[..|p|];
    }
  }

  lemma {:induction false} PrefixAndLetter(name: string, prefixes: seq<string>) returns (i: nat)
    requires LettersAfter(name, prefixes)
    ensures i < |prefixes| && name != "" && 'a' <= name[|name| - 1] <= 'z' && name == prefixes[i] + [name[|name| - 1]]
  {
    if HasPrefix(name, prefixes[0]) {
      i := 0;
    } else {
      var k := PrefixAndLetter(name, prefixes[1..]);
      i := k + 1;
    }
  }

  /** The accepted names: `nvme` and `mmcblk` names without a `p`, and one lower-case letter after the other prefixes. */
  lemma AcceptedNames(name: string)
    ensures IsPrimaryDisk(name) <==>
      || (Numbered(name) && 'p' !in name)
      || exists c :: 'a' <= c <= 'z' && name in {"sd" + [c], "vd" + [c], "hd" + [c], "xvd" + [c]}
  {
    var ps := PREFIXES;
    assert ps[1..] == ["vd", "hd", "xvd"] && ps[1..][1..] == ["hd", "xvd"] && ps[1..][1..][1..] == ["xvd"];
    assert ps[1..][1..][1..][1..] == [];
    if !Numbered(name) && IsPrimaryDisk(name) {
      var i := PrefixAndLetter(name, PREFIXES);
      assert name in {"sd" + [name[|name| - 1]], "vd" + [name[|name| - 1]], "hd" + [name[|name| - 1]], "xvd" + [name[|name| - 1]]};
    }
    if c :| 'a' <= c <= 'z' && name in {"sd" + [c], "vd" + [c], "hd" + [c], "xvd" + [c]} {
      assert name[0] == 's' || name[0] == 'v' || name[0] == 'h' || name[0] == 'x';
      assert name[0] == 'x' ==> LettersAfter(name, ["xvd"]);
      assert name[0] == 'x' || name[0] == 'h' ==> LettersAfter(name, ["hd", "xvd"]);
      assert name[0] != 's' ==> LettersAfter(name, ["vd", "hd", "xvd"]);
    }
  }

  /**
    A partition of an accepted disk is accepted itself exactly when the disk is an `nvme` or `mmcblk` device whose
    name does not end in a digit; every such device the kernel makes does end in one.
  */
  lemma PartitionsAreNotPrimary(disk: string, number: string)
    requires disk != "" && IsPrimaryDisk(disk)
    requires number != "" && forall i :: 0 <= i < |number| ==> Digit(number[i])
    ensures IsPrimaryDisk(PartitionName(disk, number)) <==> Numbered(disk) && !Digit(disk[|disk| - 1])
  {
    var part := PartitionName(disk, number);
    if Numbered(disk) {
      assert Numbered(part) by { assert disk <= part; }
      if Digit(disk[|disk| - 1]) {
        assert part[|disk|] == 'p';
      }
    } else {
      var extra := if Digit(disk[|disk| - 1]) then "p" + number else number;
      assert part == disk + extra;
      LongerIsRefused(disk, extra, PREFIXES);
      assert part[0] == disk[0];
    }
  }

  // ---------------------------------------------------------------- rates

  const SECTOR := 512

  datatype Raw = Raw(sectorsRead: u64, sectorsWritten: u64, readsCompleted: u64, writesCompleted: u64, ioTimeMs: u64)

  datatype DeviceStats = DeviceStats(
    device: string, readBytes: int, writeBytes: int,
    readBytesPerSec: real, writeBytesPerSec: real, readIOPS: real, writeIOPS: real, ioTimeMs: int)

  datatype DiskStats = DiskStats(
    totalReadBytes: real, totalWriteBytes: real, totalReadIOPS: real, totalWriteIOPS: real, devices: seq<DeviceStats>)

  type Snapshot = map<string, Raw>

  datatype Counter = ReadBytes | WriteBytes | ReadOps | WriteOps

  /** The counter as the kernel gives it: sectors, or completed requests. */
  function Count(w: Counter, r: Raw): u64 {
    match w
    case ReadBytes => r.sectorsRead
    case WriteBytes => r.sectorsWritten
    case ReadOps => r.readsCompleted
    case WriteOps => r.writesCompleted
  }

  function Unit(w: Counter): int { if w.ReadBytes? || w.WriteBytes? then SECTOR else 1 }

  /** What the counter stands for, without the width of the machine: bytes, or requests. */
  function Amount(w: Counter): Raw -> int { (r: Raw) => Count(w, r) * Unit(w) }

  /** What the code makes of two readings: the difference times the unit, on 64 bits. */
  function Grown(w: Counter, p: Raw, c: Raw): int
    requires Count(w, c) >= Count(w, p)
  {
    ((Count(w, c) - Count(w, p)) * Unit(w)) % TWO_TO_64
  }

  /** The width shows exactly from 2^55 sectors on in one interval; it never shows for requests. */
  lemma GrownIsExactIff(w: Counter, p: Raw, c: Raw)
    requires Count(w, c) >= Count(w, p)
    ensures Grown(w, p, c) == Amount(w)(c) - Amount(w)(p)
      <==> w.ReadOps? || w.WriteOps? || Count(w, c) - Count(w, p) < 0x80_0000_0000_0000
  {
    var d := Count(w, c) - Count(w, p);
    assert Amount(w)(c) - Amount(w)(p) == d * Unit(w);
  }

  function RateIn(w: Counter): DeviceStats -> real {
    (s: DeviceStats) =>
      match w
      case ReadBytes => s.readBytesPerSec
      case WriteBytes => s.writeBytesPerSec
      case ReadOps => s.readIOPS
      case WriteOps => s.writeIOPS
  }

  predicate Counts(s: DeviceStats) { IsPrimaryDisk(s.device) }

  /** The rate of an entry without rounding. */
  function ExactRate(prev: Snapshot, curr: Snapshot, w: Counter, seconds: real): DeviceStats -> real
    requires seconds > 0.0
  {
    (s: DeviceStats) =>
      if s.device in prev && s.device in curr && Count(w, curr[s.device]) >= Count(w, prev[s.device])
      then Grown(w, prev[s.device], curr[s.device]) as real / seconds else 0.0
  }

  ghost predicate Describes(s: DeviceStats, prev: Snapshot, curr: Snapshot, seconds: real)
    requires seconds > 0.0
  {
    && s.device in curr
    && (var c := curr[s.device];
        && s.readBytes == c.sectorsRead * SECTOR % TWO_TO_64 && s.writeBytes == c.sectorsWritten * SECTOR % TWO_TO_64
        && s.ioTimeMs == c.ioTimeMs)
    && forall w :: RateIn(w)(s) == Round2(ExactRate(prev, curr, w, seconds)(s))
  }

  function NamesOf(xs: seq<DeviceStats>): (ns: seq<string>)
    ensures |ns| == |xs|
  {
    seq(|xs|, i requires 0 <= i < |xs| => xs[i].device)
  }

  ghost predicate IsStats(stats: DiskStats, prev: Snapshot, curr: Snapshot, seconds: real)
    requires seconds > 0.0
  {
    && Lists(NamesOf(stats.devices), curr.Keys)
    && (forall i :: 0 <= i < |stats.devices| ==> Describes(stats.devices[i], prev, curr, seconds))
    && forall w :: TotalIn(stats, w) == Total(stats.devices, Counts, RateIn(w))
  }

  function TotalIn(stats: DiskStats, w: Counter): real {
    match w
    case ReadBytes => stats.totalReadBytes
    case WriteBytes => stats.totalWriteBytes
    case ReadOps => stats.totalReadIOPS
    case WriteOps => stats.totalWriteIOPS
  }

  /** The rate of one counter in an entry: 0 for a new device or a counter that went back. */
  function RateFor(prev: Snapshot, c: Raw, name: string, w: Counter, seconds: real): real
    requires seconds > 0.0
  {
    if name in prev && Count(w, c) >= Count(w, prev[name]) then Round2(Grown(w, prev[name], c) as real / seconds) else 0.0
  }

  method DeviceStat(prev: Snapshot, curr: Snapshot, name: string, seconds: real) returns (s: DeviceStats)
    requires seconds > 0.0 && name in curr
    ensures s.device == name && Describes(s, prev, curr, seconds)
  {
    var c := curr[name];
    s := DeviceStats(name, c.sectorsRead * SECTOR % TWO_TO_64, c.sectorsWritten * SECTOR % TWO_TO_64,
                     RateFor(prev, c, name, ReadBytes, seconds), RateFor(prev, c, name, WriteBytes, seconds),
                     RateFor(prev, c, name, ReadOps, seconds), RateFor(prev, c, name, WriteOps, seconds), c.ioTimeMs);
    forall w ensures RateIn(w)(s) == Round2(ExactRate(prev, curr, w, seconds)(s)) {
      assert RateIn(w)(s) == RateFor(prev, c, name, w, seconds);
    }
  }

  ghost predicate Partial(prev: Snapshot, curr: Snapshot, seconds: real, done: seq<string>, xs: seq<DeviceStats>)
    requires seconds > 0.0
  {
    NamesOf(xs) == done && forall k :: 0 <= k < |xs| ==> Describes(xs[k], prev, curr, seconds)
  }

  /** The totals of a report whose entries are `xs`, before they are rounded. */
  ghost predicate Adds(sums: DiskStats, xs: seq<DeviceStats>) {
    forall w :: TotalIn(sums, w) == Total(xs, Counts, RateIn(w))
  }

  function Plus(sums: DiskStats, s: DeviceStats): DiskStats {
    DiskStats(
      sums.totalReadBytes + s.readBytesPerSec, sums.totalWriteBytes + s.writeBytesPerSec,
      sums.totalReadIOPS + s.readIOPS, sums.totalWriteIOPS + s.writeIOPS, [])
  }

  lemma AddsStep(sums: DiskStats, xs: seq<DeviceStats>, s: DeviceStats)
    requires Adds(sums, xs)
    ensures Adds(if Counts(s) then Plus(sums, s) else sums, xs + [s])
  {
    forall w ensures TotalIn(if Counts(s) then Plus(sums, s) else sums, w) == Total(xs + [s], Counts, RateIn(w)) {
      TotalSnoc(xs, s, Counts, RateIn(w));
    }
  }

  method CalculateDiskStats(prev: Snapshot, curr: Snapshot, duration: real) returns (stats: DiskStats)
    ensures IsStats(stats, prev, curr, Seconds(duration))
  {
    var seconds := Seconds(duration);
    var names := SortedKeys(curr.Keys);
    var devices: seq<DeviceStats> := [];
    stats := DiskStats(0.0, 0.0, 0.0, 0.0, []);
    for i := 0 to |names|
      invariant Partial(prev, curr, seconds, names[..i], devices)
      invariant Adds(stats, devices)
    {
      assert names[i] in names;
      var s := DeviceStat(prev, curr, names[i], seconds);
      assert names[..i + 1] == names[..i] + [s.device];
      AddsStep(stats, devices, s);
      if IsPrimaryDisk(names[i]) {
        stats := Plus(stats, s);
      }
      devices := devices + [s];
    }
    assert names[..|names|] == names;
    Rounded(devices, prev, curr, seconds);
    stats := DiskStats(Round2(stats.totalReadBytes), Round2(stats.totalWriteBytes),
                       Round2(stats.totalReadIOPS), Round2(stats.totalWriteIOPS), devices);
  }

  method FirstReading(curr: Snapshot) returns (stats: DiskStats)
    ensures IsStats(stats, map[], curr, 1.0) && forall w :: TotalIn(stats, w) == 0.0
  {
    var names := SortedKeys(curr.Keys);
    var devices: seq<DeviceStats> := [];
    for i := 0 to |names|
      invariant Partial(map[], curr, 1.0, names[..i], devices)
    {
      assert names[i] in names;
      var s := DeviceStat(map[], curr, names[i], 1.0);
      assert names[..i + 1] == names[..i] + [s.device];
      devices := devices + [s];
    }
    assert names[..|names|] == names;
    NoRates(devices, curr);
    stats := DiskStats(0.0, 0.0, 0.0, 0.0, devices);
  }

  lemma NoRates(xs: seq<DeviceStats>, curr: Snapshot)
    requires forall i :: 0 <= i < |xs| ==> Describes(xs[i], map[], curr, 1.0)
    ensures forall w :: Total(xs, Counts, RateIn(w)) == 0.0
  {
    forall w ensures Total(xs, Counts, RateIn(w)) == 0.0 {
      TotalOfZeros(xs, Counts, RateIn(w));
    }
  }

  /** Rounding the totals at the end changes nothing. */
  lemma Rounded(xs: seq<DeviceStats>, prev: Snapshot, curr: Snapshot, seconds: real)
    requires seconds > 0.0 && forall i :: 0 <= i < |xs| ==> Describes(xs[i], prev, curr, seconds)
    ensures forall w :: Round2(Total(xs, Counts, RateIn(w))) == Total(xs, Counts, RateIn(w))
  {
    forall w ensures Round2(Total(xs, Counts, RateIn(w))) == Total(xs, Counts, RateIn(w)) {
      forall i | 0 <= i < |xs| ensures Hundredths(RateIn(w)(xs[i])) {
        RoundedIsHundredths(ExactRate(prev, curr, w, seconds)(xs[i]));
      }
      TotalIsRounded(xs, Counts, RateIn(w));
    }
  }

  // ---------------------------------------------------------------- results

  /** The order in which the map yields its keys does not show in the result. */
  lemma StatsUnique(a: DiskStats, b: DiskStats, prev: Snapshot, curr: Snapshot, seconds: real)
    requires seconds > 0.0 && IsStats(a, prev, curr, seconds) && IsStats(b, prev, curr, seconds)
    ensures a == b
  {
    ListsUnique(NamesOf(a.devices), NamesOf(b.devices), curr.Keys);
    forall i | 0 <= i < |a.devices| ensures a.devices[i] == b.devices[i] {
      assert NamesOf(a.devices)[i] == NamesOf(b.devices)[i];
      SameEntry(a.devices[i], b.devices[i], prev, curr, seconds);
    }
    assert a.devices == b.devices;
    assert TotalIn(a, ReadBytes) == TotalIn(b, ReadBytes) && TotalIn(a, WriteBytes) == TotalIn(b, WriteBytes);
    assert TotalIn(a, ReadOps) == TotalIn(b, ReadOps) && TotalIn(a, WriteOps) == TotalIn(b, WriteOps);
  }

  lemma SameEntry(x: DeviceStats, y: DeviceStats, prev: Snapshot, curr: Snapshot, seconds: real)
    requires seconds > 0.0 && x.device == y.device && Describes(x, prev, curr, seconds) && Describes(y, prev, curr, seconds)
    ensures x == y
  {
    forall w ensures RateIn(w)(x) == RateIn(w)(y) {
      assert ExactRate(prev, curr, w, seconds)(x) == ExactRate(prev, curr, w, seconds)(y);
    }
    assert RateIn(ReadBytes)(x) == RateIn(ReadBytes)(y) && RateIn(WriteBytes)(x) == RateIn(WriteBytes)(y);
    assert RateIn(ReadOps)(x) == RateIn(ReadOps)(y) && RateIn(WriteOps)(x) == RateIn(WriteOps)(y);
  }

  /** A total is off the sum of the unrounded rates by at most 0.005 for each whole disk. */
  lemma TotalsError(stats: DiskStats, prev: Snapshot, curr: Snapshot, seconds: real, w: Counter)
    requires seconds > 0.0 && IsStats(stats, prev, curr, seconds)
    ensures Abs(TotalIn(stats, w) - Total(stats.devices, Counts, ExactRate(prev, curr, w, seconds)))
      <= 0.005 * Members(stats.devices, Counts) as real
  {
    forall i | 0 <= i < |stats.devices|
      ensures Abs(RateIn(w)(stats.devices[i]) - ExactRate(prev, curr, w, seconds)(stats.devices[i])) <= 0.005
    {
      RoundError(ExactRate(prev, curr, w, seconds)(stats.devices[i]));
    }
    TotalError(stats.devices, Counts, RateIn(w), ExactRate(prev, curr, w, seconds));
  }

  /** A rate on the fields: rounded growth per second in 64-bit units, or 0 where the counter went back or is new. */
  ghost predicate RateOf(rate: real, known: bool, before: int, after: int, unit: int, seconds: real)
    requires seconds > 0.0
  {
    if known && before <= after then Abs(rate - ((after - before) * unit % 0x1_0000_0000_0000_0000) as real / seconds) <= 0.005
    else rate == 0.0
  }

  lemma RateIsOf(s: DeviceStats, prev: Snapshot, curr: Snapshot, seconds: real, w: Counter)
    requires seconds > 0.0 && Describes(s, prev, curr, seconds)
    ensures var p := if s.device in prev then prev[s.device] else curr[s.device];
      RateOf(RateIn(w)(s), s.device in prev, Count(w, p), Count(w, curr[s.device]), Unit(w), seconds)
  {
    RoundError(ExactRate(prev, curr, w, seconds)(s));
    RoundIdentity(0.0);
    assert Hundredths(0.0);
  }

  /**
    Field by field: which counter feeds which rate, in units of 512 bytes for sectors and 1 for requests. The
    time is the one between the readings, or one second when that is not positive.
  */
  lemma FieldsReported(stats: DiskStats, prev: Snapshot, curr: Snapshot, duration: real, s: DeviceStats)
    requires IsStats(stats, prev, curr, Seconds(duration)) && s in stats.devices
    ensures s.device in curr
    ensures var c, known, seconds := curr[s.device], s.device in prev, if duration > 0.0 then duration else 1.0;
      var p := if known then prev[s.device] else c;
      && RateOf(s.readBytesPerSec, known, p.sectorsRead, c.sectorsRead, 512, seconds)
      && RateOf(s.writeBytesPerSec, known, p.sectorsWritten, c.sectorsWritten, 512, seconds)
      && RateOf(s.readIOPS, known, p.readsCompleted, c.readsCompleted, 1, seconds)
      && RateOf(s.writeIOPS, known, p.writesCompleted, c.writesCompleted, 1, seconds)
  {
    var seconds := Seconds(duration);
    assert Describes(s, prev, curr, seconds);
    RateIsOf(s, prev, curr, seconds, ReadBytes);
    RateIsOf(s, prev, curr, seconds, WriteBytes);
    RateIsOf(s, prev, curr, seconds, ReadOps);
    RateIsOf(s, prev, curr, seconds, WriteOps);
  }

  /** The counter grew by less than 2^55 between the two readings. */
  predicate SmallStep(b: Baseline<Snapshot>, o: Outcome<Snapshot>, name: string, w: Counter) {
    b.Last? && o.Reads? && name in b.snapshot && name in o.snapshot ==>
      Count(w, o.snapshot[name]) - Count(w, b.snapshot[name]) < 0x80_0000_0000_0000
  }

  ghost predicate SmallSteps(readings: seq<Outcome<Snapshot>>, name: string, w: Counter) {
    forall k :: 0 <= k < |readings| ==> SmallStep(End(Empty, readings[..k]), readings[k], name, w)
  }

  /** Below 2^55 sectors in the interval, a device in both snapshots reports the rate that telescopes. */
  lemma ReportedRate(b: Baseline<Snapshot>, o: Outcome<Snapshot>, stats: DiskStats, s: DeviceStats, w: Counter)
    requires b.Last? && o.Reads? && IsStats(stats, b.snapshot, o.snapshot, Seconds(o.time - b.time))
    requires s in stats.devices && s.device in b.snapshot && SmallStep(b, o, s.device, w)
    ensures RateIn(w)(s) == Reported(b, o, Track(s.device, Amount(w)))
  {
    var seconds := Seconds(o.time - b.time);
    var p, c := b.snapshot[s.device], o.snapshot[s.device];
    assert Describes(s, b.snapshot, o.snapshot, seconds);
    assert RateIn(w)(s) == Round2(ExactRate(b.snapshot, o.snapshot, w, seconds)(s));
    if Count(w, c) >= Count(w, p) {
      GrownIsExactIff(w, p, c);
    }
    AmountMonotone(w, p, c);
  }

  lemma AmountMonotone(w: Counter, p: Raw, c: Raw)
    ensures Count(w, p) <= Count(w, c) <==> Amount(w)(p) <= Amount(w)(c)
  {
  }

  class DiskCollector {
    var last: Baseline<Snapshot>

    constructor ()
      ensures last == Empty
    {
      last := Empty;
    }

    /** `Collect`: an error leaves the baseline alone; the first reading sets it and reports no rates. */
    method Collect(reading: Outcome<Snapshot>) returns (stats: DiskStats, ok: bool)
      modifies this
      ensures last == Next(old(last), reading) && ok == reading.Reads?
      ensures ok && old(last).Last? ==>
        IsStats(stats, old(last).snapshot, reading.snapshot, Seconds(reading.time - old(last).time))
      ensures ok && old(last).Empty? ==> IsStats(stats, map[], reading.snapshot, 1.0) && forall w :: TotalIn(stats, w) == 0.0
    {
      ok := reading.Reads?;
      stats := DiskStats(0.0, 0.0, 0.0, 0.0, []);
      if ok {
        if last.Empty? {
          stats := FirstReading(reading.snapshot);
        } else {
          stats := CalculateDiskStats(last.snapshot, reading.snapshot, reading.time - last.time);
        }
        last := Last(reading.time, reading.snapshot);
      }
    }

    /** What a reader of the reports makes of one call: the rate times the time since the previous reading. */
    method CollectArea(reading: Outcome<Snapshot>, name: string, w: Counter) returns (area: real)
      requires (last.Last? ==> name in last.snapshot) && (reading.Reads? ==> name in reading.snapshot)
      requires SmallStep(last, reading, name, w)
      modifies this
      ensures last == Next(old(last), reading) && area == Area(old(last), reading, Track(name, Amount(w)))
    {
      var before := last;
      var stats, ok := Collect(reading);
      area := 0.0;
      if ok && before.Last? {
        area := AreaReported(stats, before, reading, name, w);
      }
    }
  }

  /** A device of the snapshot has an entry. */
  lemma HasEntry(stats: DiskStats, prev: Snapshot, curr: Snapshot, seconds: real, name: string) returns (i: nat)
    requires seconds > 0.0 && IsStats(stats, prev, curr, seconds) && name in curr
    ensures i < |stats.devices| && stats.devices[i].device == name
  {
    assert name in NamesOf(stats.devices);
    i :| i < |stats.devices| && NamesOf(stats.devices)[i] == name;
  }

  /** Looks a device up in the reported list. */
  method Find(stats: DiskStats, ghost prev: Snapshot, ghost curr: Snapshot, ghost seconds: real, name: string) returns (s: DeviceStats)
    requires seconds > 0.0 && IsStats(stats, prev, curr, seconds) && name in curr
    ensures s in stats.devices && s.device == name
  {
    ghost var at := HasEntry(stats, prev, curr, seconds, name);
    var i := 0;
    while stats.devices[i].device != name
      invariant 0 <= i <= at
      decreases at - i
    {
      i := i + 1;
    }
    s := stats.devices[i];
  }

  method RateReported(stats: DiskStats, b: Baseline<Snapshot>, o: Outcome<Snapshot>, name: string, w: Counter) returns (rate: real)
    requires b.Last? && o.Reads? && IsStats(stats, b.snapshot, o.snapshot, Seconds(o.time - b.time))
    requires name in b.snapshot && name in o.snapshot && SmallStep(b, o, name, w)
    ensures rate == Reported(b, o, Track(name, Amount(w)))
  {
    var s := Find(stats, b.snapshot, o.snapshot, Seconds(o.time - b.time), name);
    ReportedRate(b, o, stats, s, w);
    rate := RateIn(w)(s);
  }

  method AreaReported(stats: DiskStats, b: Baseline<Snapshot>, o: Outcome<Snapshot>, name: string, w: Counter) returns (area: real)
    requires b.Last? && o.Reads? && IsStats(stats, b.snapshot, o.snapshot, Seconds(o.time - b.time))
    requires name in b.snapshot && name in o.snapshot && SmallStep(b, o, name, w)
    ensures area == Area(b, o, Track(name, Amount(w)))
  {
    var rate := RateReported(stats, b, o, name, w);
    area := rate * Interval(b, o);
  }

  /**
    What a reader of the reports of one device adds up over a run of `Collect` calls on one collector, failed
    calls included, is the bytes or requests between the first and the last reading, within 0.005 for each
    second between them.
  */
  method AddUpReports(readings: seq<Outcome<Snapshot>>, name: string, w: Counter) returns (sum: real)
    requires Present(readings, name) && First(readings).Last? && Advances(Empty, readings, Track(name, Amount(w)))
    requires SmallSteps(readings, name, w)
    ensures var first, last := First(readings), End(Empty, readings);
      && last.Last? && name in first.snapshot && name in last.snapshot
      && Abs(sum - (Amount(w)(last.snapshot[name]) - Amount(w)(first.snapshot[name])) as real) <= 0.005 * (last.time - first.time)
  {
    DeviceTelescope(readings, name, Amount(w));
    sum := SumOfAreas(readings, name, w);
  }

  method SumOfAreas(readings: seq<Outcome<Snapshot>>, name: string, w: Counter) returns (sum: real)
    requires Present(readings, name) && SmallSteps(readings, name, w)
    ensures sum == Integral(Empty, readings, Track(name, Amount(w)))
  {
    var c := new DiskCollector();
    sum := 0.0;
    for k := 0 to |readings|
      invariant c.last == End(Empty, readings[..k])
      invariant sum == Integral(Empty, readings[..k], Track(name, Amount(w)))
    {
      assert readings[..k + 1] == readings[..k] + [readings[k]];
      IntegralSnoc(Empty, readings[..k], readings[k], Track(name, Amount(w)));
      EndIsARead(readings[..k], name);
      var area := c.CollectArea(readings[k], name, w);
      sum := sum + area;
    }
    assert readings[..|readings|] == readings;
  }
}
