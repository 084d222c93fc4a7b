/**
  The arithmetic shared by the collectors, over real numbers: rounding to two decimals, rates between two
  readings of a 64-bit counter, and what rates of a whole run of samples add up to.
*/
module Rates {
  const TWO_TO_64: int := 0x1_0000_0000_0000_0000

  type u64 = x: int | 0 <= x < TWO_TO_64

  // ---------------------------------------------------------------- rounding

  /** `math.Round`: halves away from zero. */
  function Nearest(y: real): int {
    if y >= 0.0 then (y + 0.5).Floor else -((-y + 0.5).Floor)
  }

  /** `roundFloat(x, 2)`. */
  function Round2(x: real): real { Nearest(x * 100.0) as real / 100.0 }

  function Abs(x: real): real { if x < 0.0 then -x else x }

  lemma RoundError(x: real)
    ensures Abs(Round2(x) - x) <= 0.005
  {
    var y := x * 100.0;
    assert Abs(Nearest(y) as real - y) <= 0.5;
  }

  lemma RoundMonotone(x: real, y: real)
    requires x <= y
    ensures Round2(x) <= Round2(y)
  {
    assert Nearest(x * 100.0) <= Nearest(y * 100.0);
  }

  predicate Whole(y: real) { y == y.Floor as real }

  /** A whole number of hundredths. */
  predicate Hundredths(x: real) { Whole(x * 100.0) }

  lemma RoundedIsHundredths(x: real)
    ensures Hundredths(Round2(x))
  {
    var n := Nearest(x * 100.0) as real;
    assert Round2(x) * 100.0 == n;
  }

  lemma FloorOfInt(n: int)
    ensures (n as real).Floor == n
  {
  }

  lemma WholeAdd(a: real, b: real)
    requires Whole(a) && Whole(b)
    ensures Whole(a + b)
  {
    var n := a.Floor + b.Floor;
    assert n as real == a.Floor as real + b.Floor as real;
    FloorOfInt(n);
  }

  lemma HundredthsAdd(x: real, y: real)
    requires Hundredths(x) && Hundredths(y)
    ensures Hundredths(x + y)
  {
    assert (x + y) * 100.0 == x * 100.0 + y * 100.0;
    WholeAdd(x * 100.0, y * 100.0);
  }

  lemma NearestOfWhole(y: real)
    requires Whole(y)
    ensures Nearest(y) as real == y
  {
    var n := y.Floor;
    if y >= 0.0 {
      assert (n as real + 0.5).Floor == n;
    } else {
      assert ((-n) as real + 0.5).Floor == -n;
    }
  }

  /** Rounding changes nothing exactly on whole hundredths. */
  lemma RoundIdentity(x: real)
    ensures Round2(x) == x <==> Hundredths(x)
  {
    RoundedIsHundredths(x);
    if Hundredths(x) {
      NearestOfWhole(x * 100.0);
    }
  }

  // ---------------------------------------------------------------- one interval

  /** `duration.Seconds()`, or one second when it is not positive. */
  function Seconds(d: real): (s: real)
    ensures s > 0.0
  {
    if d <= 0.0 then 1.0 else d
  }

  /** The rate of a counter; a counter that went back yields 0. */
  function Rate(prev: int, curr: int, seconds: real): real
    requires seconds > 0.0
  {
    if curr >= prev then Round2((curr - prev) as real / seconds) else 0.0
  }

  lemma RateHundredths(prev: int, curr: int, seconds: real)
    requires seconds > 0.0
    ensures Hundredths(Rate(prev, curr, seconds))
  {
    RoundedIsHundredths((curr - prev) as real / seconds);
  }

  lemma RateTimesInterval(prev: int, curr: int, seconds: real)
    requires seconds > 0.0 && prev <= curr
    ensures Abs(Rate(prev, curr, seconds) * seconds - (curr - prev) as real) <= 0.005 * seconds
  {
    var d := (curr - prev) as real;
    var exact := d / seconds;
    RoundError(exact);
    QuotientTimes(d, seconds);
    var e := Round2(exact) - exact;
    Distribute(exact, e, seconds);
    ScaleBound(e, 0.005, seconds);
  }

  lemma QuotientTimes(d: real, s: real)
    requires s > 0.0
    ensures (d / s) * s == d
  {
  }

  lemma Distribute(a: real, b: real, s: real)
    ensures (a + b) * s == a * s + b * s
  {
  }

  lemma ScaleBound(e: real, b: real, s: real)
    requires Abs(e) <= b && s > 0.0
    ensures Abs(e * s) <= b * s
  {
    if e >= 0.0 {
      assert e * s <= b * s;
    } else {
      assert (-e) * s <= b * s;
      assert (-e) * s == -(e * s);
    }
  }

  // ---------------------------------------------------------------- runs of samples

  /** A call of `Collect`: it fails before it touches anything, or it reads a snapshot at some time. */
  datatype Outcome<S> = Fails | Reads(time: real, snapshot: S)

  datatype Baseline<S> = Empty | Last(time: real, snapshot: S)

  function Next<S>(b: Baseline<S>, o: Outcome<S>): Baseline<S> {
    if o.Fails? then b else Last(o.time, o.snapshot)
  }

  /** The rate reported by one call for the counter `count`; the first reading and a failure report none. */
  function Reported<S>(b: Baseline<S>, o: Outcome<S>, count: S -> int): real {
    if b.Empty? || o.Fails? then 0.0 else Rate(count(b.snapshot), count(o.snapshot), Seconds(o.time - b.time))
  }

  function Interval<S>(b: Baseline<S>, o: Outcome<S>): real {
    if b.Empty? || o.Fails? then 0.0 else o.time - b.time
  }

  function End<S>(b: Baseline<S>, outs: seq<Outcome<S>>): Baseline<S>
    decreases |outs|
  {
    if outs == [] then b else End(Next(b, outs[0]), outs[1..])
  }

  function Area<S>(b: Baseline<S>, o: Outcome<S>, count: S -> int): real {
    Reported(b, o, count) * Interval(b, o)
  }

  /** The sum of rate times interval over a run. */
  function Integral<S>(b: Baseline<S>, outs: seq<Outcome<S>>, count: S -> int): real
    decreases |outs|
  {
    if outs == [] then 0.0
    else Area(b, outs[0], count) + Integral(Next(b, outs[0]), outs[1..], count)
  }

  /** Time moves on between readings and the counter never goes back. */
  ghost predicate Advances<S>(b: Baseline<S>, outs: seq<Outcome<S>>, count: S -> int)
    decreases |outs|
  {
    outs == [] ||
    (&& (b.Last? && outs[0].Reads? ==> b.time < outs[0].time && count(b.snapshot) <= count(outs[0].snapshot))
     && Advances(Next(b, outs[0]), outs[1..], count))
  }

  lemma AreaError<S>(b: Baseline<S>, o: Outcome<S>, count: S -> int)
    requires b.Last? && o.Reads? && b.time < o.time && count(b.snapshot) <= count(o.snapshot)
    ensures Abs(Area(b, o, count) - (count(o.snapshot) - count(b.snapshot)) as real) <= 0.005 * (o.time - b.time)
  {
    RateTimesInterval(count(b.snapshot), count(o.snapshot), o.time - b.time);
  }

  ghost predicate Close<S>(b: Baseline<S>, e: Baseline<S>, integral: real, count: S -> int) {
    && b.Last? && e.Last? && b.time <= e.time
    && Abs(integral - (count(e.snapshot) - count(b.snapshot)) as real) <= 0.005 * (e.time - b.time)
  }

  lemma CloseStep<S>(b: Baseline<S>, o: Outcome<S>, e: Baseline<S>, area: real, rest: real, count: S -> int)
    requires b.Last? && o.Reads? && b.time < o.time
    requires Abs(area - (count(o.snapshot) - count(b.snapshot)) as real) <= 0.005 * (o.time - b.time)
    requires Close(Next(b, o), e, rest, count)
    ensures Close(b, e, area + rest, count)
  {
    Triangle(area, (count(o.snapshot) - count(b.snapshot)) as real,
             rest, (count(e.snapshot) - count(o.snapshot)) as real, o.time - b.time, e.time - o.time);
  }

  /**
    Over a whole run with a baseline, rate times interval adds up to the counter's growth, within 0.005 for
    each unit of time; calls that fail in between change nothing.
  */
  lemma {:induction false} Telescope<S>(b: Baseline<S>, outs: seq<Outcome<S>>, count: S -> int)
    requires b.Last? && Advances(b, outs, count)
    ensures Close(b, End(b, outs), Integral(b, outs, count), count)
    decreases |outs|
  {
    if outs != [] {
      var o := outs[0];
      var b' := Next(b, o);
      Telescope(b', outs[1..], count);
      if o.Reads? {
        AreaError(b, o, count);
        CloseStep(b, o, End(b', outs[1..]), Area(b, o, count), Integral(b', outs[1..], count), count);
      } else {
        FailureAddsNothing(b, o, count);
      }
    }
  }

  /** The reading that sets the baseline. */
  function First<S>(outs: seq<Outcome<S>>): Baseline<S> {
    if outs == [] then Empty
    else if outs[0].Reads? then Last(outs[0].time, outs[0].snapshot)
    else First(outs[1..])
  }

  /** The same from the start of a collector: the first successful reading reports nothing and sets the baseline. */
  lemma {:induction false} TelescopeFromStart<S>(outs: seq<Outcome<S>>, count: S -> int)
    requires Advances(Empty, outs, count)
    ensures First(outs).Last? <==> End(Empty, outs).Last?
    ensures First(outs).Last? ==> Close(First(outs), End(Empty, outs), Integral(Empty, outs, count), count)
    decreases |outs|
  {
    if outs != [] {
      assert Area(Empty, outs[0], count) == 0.0;
      if outs[0].Reads? {
        Telescope(Last(outs[0].time, outs[0].snapshot), outs[1..], count);
      } else {
        TelescopeFromStart(outs[1..], count);
      }
    }
  }

  lemma {:induction false} IntegralSnoc<S>(b: Baseline<S>, outs: seq<Outcome<S>>, o: Outcome<S>, count: S -> int)
    ensures End(b, outs + [o]) == Next(End(b, outs), o)
    ensures Integral(b, outs + [o], count) == Integral(b, outs, count) + Area(End(b, outs), o, count)
    decreases |outs|
  {
    if outs == [] {
      assert ([] + [o])[1..] == [];
    } else {
      IntegralSnoc(Next(b, outs[0]), outs[1..], o, count);
      assert (outs + [o])[1..] == outs[1..] + [o];
    }
  }

  lemma FailureAddsNothing<S>(b: Baseline<S>, o: Outcome<S>, count: S -> int)
    requires o.Fails?
    ensures Area(b, o, count) == 0.0 && Next(b, o) == b
  {
  }

  lemma Triangle(x: real, a: real, y: real, b: real, s: real, t: real)
    requires Abs(x - a) <= 0.005 * s && Abs(y - b) <= 0.005 * t
    ensures Abs((x + y) - (a + b)) <= 0.005 * (s + t)
  {
  }

  // ---------------------------------------------------------------- runs over tables of counters

  /** One counter of the device `name`, over snapshots that map device names to readings. */
  function Track<R>(name: string, get: R -> int): map<string, R> -> int {
    (m: map<string, R>) => if name in m then get(m[name]) else 0
  }

  ghost predicate Present<R>(outs: seq<Outcome<map<string, R>>>, name: string) {
    forall i :: 0 <= i < |outs| && outs[i].Reads? ==> name in outs[i].snapshot
  }

  lemma {:induction false} EndIsARead<R>(outs: seq<Outcome<map<string, R>>>, name: string)
    requires Present(outs, name)
    ensures var e := End(Empty, outs); e.Last? ==> name in e.snapshot
  {
    if outs != [] {
      var n := |outs| - 1;
      assert outs == outs[..n] + [outs[n]];
      IntegralSnoc(Empty, outs[..n], outs[n], (_: map<string, R>) => 0);
      EndIsARead(outs[..n], name);
    }
  }

  lemma {:induction false} FirstIsARead<R>(outs: seq<Outcome<map<string, R>>>, name: string)
    requires Present(outs, name) && First(outs).Last?
    ensures name in First(outs).snapshot
  {
    if outs[0].Fails? {
      assert forall i :: 0 <= i < |outs| - 1 ==> outs[1..][i] == outs[i + 1];
      FirstIsARead(outs[1..], name);
    }
  }

  /**
    For a device in every successful reading: rate times interval adds up to what its counter grew by between the
    first and the last reading, within 0.005 for each unit of time, however many calls failed in between.
  */
  lemma DeviceTelescope<R>(outs: seq<Outcome<map<string, R>>>, name: string, get: R -> int)
    requires Present(outs, name) && First(outs).Last? && Advances(Empty, outs, Track(name, get))
    ensures var first, last := First(outs), End(Empty, outs);
      && last.Last? && name in first.snapshot && name in last.snapshot
      && Abs(Integral(Empty, outs, Track(name, get)) - (get(last.snapshot[name]) - get(first.snapshot[name])) as real)
         <= 0.005 * (last.time - first.time)
  {
    TelescopeFromStart(outs, Track(name, get));
    EndIsARead(outs, name);
    FirstIsARead(outs, name);
  }

  // ---------------------------------------------------------------- totals

  /** The sum of a rate over the entries that count. */
  function Total<T>(xs: seq<T>, counts: T -> bool, rate: T -> real): real {
    if xs == [] then 0.0
    else
      var n := |xs| - 1;
      Total(xs[..n], counts, rate) + if counts(xs[n]) then rate(xs[n]) else 0.0
  }

  function Members<T>(xs: seq<T>, counts: T -> bool): nat {
    if xs == [] then 0 else Members(xs[..|xs| - 1], counts) + if counts(xs[|xs| - 1]) then 1 else 0
  }

  /** The number of entries that count. */
  lemma {:induction false} MembersAre<T>(xs: seq<T>, counts: T -> bool)
    ensures Members(xs, counts) == |set i: nat | i < |xs| && counts(xs[i])|
  {
    if xs != [] {
      var n := |xs| - 1;
      MembersAre(xs[..n], counts);
      var before := set i: nat | i < n && counts(xs[..n][i]);
      assert (set i: nat | i < |xs| && counts(xs[i])) == if counts(xs[n]) then before + {n} else before;
    }
  }

  lemma TotalSnoc<T>(xs: seq<T>, x: T, counts: T -> bool, rate: T -> real)
    ensures Total(xs + [x], counts, rate) == Total(xs, counts, rate) + if counts(x) then rate(x) else 0.0
  {
    assert (xs + [x])[..|xs|] == xs;
  }

  /** A total of rounded rates is a whole number of hundredths: rounding it once more changes nothing. */
  lemma {:induction false} TotalIsRounded<T>(xs: seq<T>, counts: T -> bool, rate: T -> real)
    requires forall i :: 0 <= i < |xs| ==> Hundredths(rate(xs[i]))
    ensures Hundredths(Total(xs, counts, rate)) && Round2(Total(xs, counts, rate)) == Total(xs, counts, rate)
  {
    assert Hundredths(0.0);
    if xs != [] {
      var n := |xs| - 1;
      TotalIsRounded(xs[..n], counts, rate);
      HundredthsAdd(Total(xs[..n], counts, rate), if counts(xs[n]) then rate(xs[n]) else 0.0);
    }
    RoundIdentity(Total(xs, counts, rate));
  }

  lemma {:induction false} TotalError<T>(xs: seq<T>, counts: T -> bool, rate: T -> real, exact: T -> real)
    requires forall i :: 0 <= i < |xs| ==> Abs(rate(xs[i]) - exact(xs[i])) <= 0.005
    ensures Abs(Total(xs, counts, rate) - Total(xs, counts, exact)) <= 0.005 * Members(xs, counts) as real
  {
    if xs != [] {
      TotalError(xs[..|xs| - 1], counts, rate, exact);
    }
  }

  lemma {:induction false} TotalOfZeros<T>(xs: seq<T>, counts: T -> bool, rate: T -> real)
    requires forall i :: 0 <= i < |xs| ==> rate(xs[i]) == 0.0
    ensures Total(xs, counts, rate) == 0.0
  {
    if xs != [] {
      TotalOfZeros(xs[..|xs| - 1], counts, rate);
    }
  }
}
