/**
  The tailing loop of `tailFile`: one iteration at a time over a file that its owner appends to, cuts, or
  lets fail. Characters stand for bytes.
*/
module LogTailer {
  import opened Sequences
  import opened Text

  const MAX_LINE := 4096

  datatype State = State(
    file: string,
    pos: nat,               // how much of the file the reader has consumed
    offset: nat,            // the loop's own count
    linesThisSecond: nat,
    emitted: seq<string>,   // lines passed on, trimmed and cut
    stopped: bool,
    // history since the last seek
    start: nat,
    consumed: seq<string>,  // complete lines read, with their newline
    lost: nat,              // characters read and thrown away
    shrunk: bool,           // the file got shorter since
    emittedBefore: nat,
    // history since the last tick
    taken: nat,
    takenAtTick: nat)

  datatype Action =
    | Append(text: string)
    | Truncate(size: nat)
    | Stop
    | Iterate(tick: bool, statOk: bool)
    | ReadFails(tick: bool, partial: nat)   // a read error after `partial` buffered characters of a line

  /** After the seek to the end of the file. */
  function Opened(file: string, emitted: seq<string>): State {
    State(file, |file|, |file|, 0, emitted, false, |file|, [], 0, false, |emitted|, 0, 0)
  }

  function Unread(s: State): string { if s.pos <= |s.file| then s.file[s.pos..] else "" }

  predicate Enabled(s: State, a: Action) {
    match a
    case Append(_) => true
    case Truncate(n) => n < |s.file|
    case Stop => true
    case Iterate(_, _) => !s.stopped
    case ReadFails(_, k) => !s.stopped && k <= IndexOf(Unread(s), NL)
  }

  /** `strings.TrimRight(line, "\r\n")`. */
  function TrimBreaks(t: string): string {
    if t != "" && (t[|t| - 1] == '\r' || t[|t| - 1] == '\n') then TrimBreaks(t[..|t| - 1]) else t
  }

  function Cut(t: string): string { if |t| > MAX_LINE then t[..MAX_LINE] else t }

  function Emission(line: string): seq<string> {
    var t := Cut(TrimBreaks(line));
    if t != "" then [t] else []
  }

  /** What is passed on of a line: all but its trailing CR and LF characters, of that the first 4096, if anything is left. */
  lemma {:induction false} TrimBreaksIs(line: string)
    ensures var t := TrimBreaks(line);
      && t <= line
      && (forall i :: |t| <= i < |line| ==> line[i] == '\r' || line[i] == '\n')
      && (t != "" ==> t[|t| - 1] != '\r' && t[|t| - 1] != '\n')
  {
    if line != "" && (line[|line| - 1] == '\r' || line[|line| - 1] == '\n') {
      TrimBreaksIs(line[..|line| - 1]);
    }
  }

  /** A line is passed on without its line break, as far as its first 4096 characters, unless nothing is left of it. */
  lemma EmissionIs(body: string, breaks: string)
    requires forall i :: 0 <= i < |breaks| ==> breaks[i] == '\r' || breaks[i] == '\n'
    requires body != "" ==> body[|body| - 1] != '\r' && body[|body| - 1] != '\n'
    ensures Emission(body + breaks) == if body == "" then [] else [if |body| <= 4096 then body else body[..4096]]
  {
    DropBreaks(body, breaks);
  }

  lemma {:induction false} DropBreaks(body: string, breaks: string)
    requires forall i :: 0 <= i < |breaks| ==> breaks[i] == '\r' || breaks[i] == '\n'
    requires body != "" ==> body[|body| - 1] != '\r' && body[|body| - 1] != '\n'
    ensures TrimBreaks(body + breaks) == body
  {
    if breaks == "" {
      assert body + breaks == body;
    } else {
      var n := |breaks| - 1;
      assert (body + breaks)[..|body| + n] == body + breaks[..n] && (body + breaks)[|body| + n] == breaks[n];
      DropBreaks(body, breaks[..n]);
    }
  }

  function Ticked(s: State, tick: bool): State {
    if tick then s.(linesThisSecond := 0, takenAtTick := s.taken) else s
  }

  function Consume(s: State): State
    requires IndexOf(Unread(s), NL) < |Unread(s)|
  {
    Advanced(s, Unread(s)[..IndexOf(Unread(s), NL) + 1])
  }

  function Advanced(s: State, line: string): State {
    s.(pos := s.pos + |line|, offset := s.offset + |line|, linesThisSecond := s.linesThisSecond + 1,
       consumed := s.consumed + [line], taken := s.taken + 1, emitted := s.emitted + Emission(line))
  }

  function AtEnd(s: State, statOk: bool): State {
    if statOk && |s.file| < s.offset then
      s.(pos := 0, offset := 0, start := 0, consumed := [], lost := 0, shrunk := false, emittedBefore := |s.emitted|)
    else
      s.(pos := s.pos + |Unread(s)|, lost := s.lost + |Unread(s)|)
  }

  /** The next complete line, or the end of the file. */
  function ReadOn(s: State, statOk: bool): State {
    if IndexOf(Unread(s), NL) < |Unread(s)| then Consume(s) else AtEnd(s, statOk)
  }

  function Apply(maxRate: nat, s: State, a: Action): State
    requires Enabled(s, a)
  {
    match a
    case Append(t) => s.(file := s.file + t)
    case Truncate(n) => s.(file := s.file[..n], shrunk := true)
    case Stop => s.(stopped := true)
    case Iterate(tick, statOk) =>
      var s1 := Ticked(s, tick);
      if s1.linesThisSecond >= maxRate then s1
      else ReadOn(s1, statOk)
    case ReadFails(tick, k) =>
      var s1 := Ticked(s, tick);
      if s1.linesThisSecond >= maxRate then s1 else s1.(pos := s1.pos + k, lost := s1.lost + k)
  }

  ghost predicate CanRun(maxRate: nat, s: State, acts: seq<Action>)
    decreases |acts|
  {
    acts == [] || (Enabled(s, acts[0]) && CanRun(maxRate, Apply(maxRate, s, acts[0]), acts[1..]))
  }

  ghost function Run(maxRate: nat, s: State, acts: seq<Action>): State
    requires CanRun(maxRate, s, acts)
    decreases |acts|
  {
    if acts == [] then s else Run(maxRate, Apply(maxRate, s, acts[0]), acts[1..])
  }

  // ---------------------------------------------------------------- the lines of a text

  /** The newline-terminated lines of `t`, each with its newline; an unterminated rest does not count. */
  function LinesOf(t: string): seq<string>
    decreases |t|
  {
    var n := IndexOf(t, NL);
    if n == |t| then [] else [t[..n + 1]] + LinesOf(t[n + 1..])
  }

  function EmissionsOf(lines: seq<string>): seq<string> {
    if lines == [] then [] else EmissionsOf(lines[..|lines| - 1]) + Emission(lines[|lines| - 1])
  }

  function Flat(lines: seq<string>): string {
    if lines == [] then "" else Flat(lines[..|lines| - 1]) + lines[|lines| - 1]
  }

  predicate WholeLine(l: string) { l != "" && IndexOf(l, NL) == |l| - 1 }

  predicate WholeLines(t: string) { t == "" || t[|t| - 1] == NL }

  lemma LinesOfStep(line: string, rest: string)
    requires WholeLine(line)
    ensures LinesOf(line + rest) == [line] + LinesOf(rest)
  {
    var t := line + rest;
    IndexOfIs(t, NL, |line| - 1);
    assert t[..|line|] == line && t[|line|..] == rest;
  }

  lemma {:induction false} LinesAppend(a: string, l: string)
    requires WholeLines(a) && WholeLine(l)
    ensures LinesOf(a + l) == LinesOf(a) + [l]
    decreases |a|
  {
    if a == "" {
      LinesOfStep(l, "");
      assert "" + l == l && l + "" == l;
    } else {
      var n := IndexOf(a, NL);
      var first, rest := a[..n + 1], a[n + 1..];
      IndexOfIs(first, NL, n);
      assert a == first + rest;
      assert WholeLines(rest);
      LinesAppend(rest, l);
      LinesOfStep(first, rest);
      LinesOfStep(first, rest + l);
      Associate(first, rest, l);
      Associate([first], LinesOf(rest), [l]);
    }
  }

  lemma LinesOfFlatSnoc(front: seq<string>, last: string)
    requires LinesOf(Flat(front)) == front && WholeLines(Flat(front)) && WholeLine(last)
    ensures LinesOf(Flat(front + [last])) == front + [last] && WholeLines(Flat(front + [last]))
  {
    FlatSnoc(front, last);
    LinesAppend(Flat(front), last);
  }

  lemma FlatSnoc(front: seq<string>, last: string)
    ensures Flat(front + [last]) == Flat(front) + last
  {
    assert (front + [last])[..|front|] == front;
  }

  lemma EmissionsSnoc(front: seq<string>, last: string)
    ensures EmissionsOf(front + [last]) == EmissionsOf(front) + Emission(last)
  {
    assert (front + [last])[..|front|] == front;
  }

  lemma {:induction false} LinesOfFlat(lines: seq<string>)
    requires forall i :: 0 <= i < |lines| ==> WholeLine(lines[i])
    ensures LinesOf(Flat(lines)) == lines && WholeLines(Flat(lines))
  {
    if lines != [] {
      var front, last := lines[..|lines| - 1], lines[|lines| - 1];
      LinesOfFlat(front);
      LinesOfFlatSnoc(front, last);
      assert lines == front + [last];
    }
  }

  // ---------------------------------------------------------------- invariant

  /** What the loop has seen since its last seek, as long as the file has not been cut below it. */
  ghost predicate Tracking(s: State) {
    Whole(s.consumed) && Placed(s) && Emitted(s.emitted, s.emittedBefore, s.consumed)
  }

  ghost predicate Whole(lines: seq<string>) { forall i :: 0 <= i < |lines| ==> WholeLine(lines[i]) }

  ghost predicate Placed(s: State) {
    && s.offset == s.start + |Flat(s.consumed)|
    && s.pos == s.offset + s.lost
    && (!s.shrunk ==> s.pos <= |s.file| && (s.lost == 0 ==> s.file[s.start..s.pos] == Flat(s.consumed)))
  }

  ghost predicate Emitted(emitted: seq<string>, before: nat, consumed: seq<string>) {
    before <= |emitted| && emitted[before..] == EmissionsOf(consumed)
  }

  ghost predicate Inv(maxRate: nat, s: State) {
    && Tracking(s)
    && s.linesThisSecond == s.taken - s.takenAtTick && s.linesThisSecond <= maxRate
  }

  lemma TakenAtEnd(file: string, start: nat, pos: nat, n: nat)
    requires start <= pos && pos + n < |file|
    ensures file[start..pos + n + 1] == file[start..pos] + file[pos..][..n + 1]
  {
  }

  lemma EmittedAfter(emitted: seq<string>, k: nat, more: seq<string>)
    requires k <= |emitted|
    ensures (emitted + more)[k..] == emitted[k..] + more
  {
  }

  lemma ConsumePlaces(s: State)
    requires Placed(s) && IndexOf(Unread(s), NL) < |Unread(s)|
    ensures Placed(Consume(s))
  {
    var n := IndexOf(Unread(s), NL);
    FlatSnoc(s.consumed, Unread(s)[..n + 1]);
    if !s.shrunk && s.lost == 0 {
      TakenAtEnd(s.file, s.start, s.pos, n);
    }
  }

  lemma ConsumeEmits(s: State)
    requires Emitted(s.emitted, s.emittedBefore, s.consumed) && IndexOf(Unread(s), NL) < |Unread(s)|
    ensures var s' := Consume(s); Emitted(s'.emitted, s'.emittedBefore, s'.consumed)
  {
    var line := Unread(s)[..IndexOf(Unread(s), NL) + 1];
    EmissionsSnoc(s.consumed, line);
    EmittedAfter(s.emitted, s.emittedBefore, Emission(line));
  }

  lemma ConsumeWhole(s: State)
    requires Whole(s.consumed) && IndexOf(Unread(s), NL) < |Unread(s)|
    ensures Whole(Consume(s).consumed)
  {
    var n := IndexOf(Unread(s), NL);
    IndexOfIs(Unread(s)[..n + 1], NL, n);
  }

  lemma ConsumeTracks(s: State)
    requires Tracking(s) && IndexOf(Unread(s), NL) < |Unread(s)|
    ensures Tracking(Consume(s))
  {
    ConsumeWhole(s);
    ConsumePlaces(s);
    ConsumeEmits(s);
  }

  lemma AtEndTracks(s: State, statOk: bool)
    requires Tracking(s)
    ensures Tracking(AtEnd(s, statOk))
  {
    var s' := AtEnd(s, statOk);
    if statOk && |s.file| < s.offset {
      assert s'.emitted[s'.emittedBefore..] == [];
    }
  }

  lemma AppendTracks(s: State, t: string)
    requires Tracking(s)
    ensures Tracking(s.(file := s.file + t))
  {
    if !s.shrunk {
      assert (s.file + t)[s.start..s.pos] == s.file[s.start..s.pos];
    }
  }

  lemma IterateTracks(maxRate: nat, s: State, tick: bool, statOk: bool)
    requires Tracking(s) && !s.stopped
    ensures Tracking(Apply(maxRate, s, Iterate(tick, statOk)))
  {
    var s1 := Ticked(s, tick);
    assert Tracking(s1);
    if IndexOf(Unread(s1), NL) < |Unread(s1)| {
      ConsumeTracks(s1);
    } else {
      AtEndTracks(s1, statOk);
    }
  }

  lemma TrackingStep(maxRate: nat, s: State, a: Action)
    requires Tracking(s) && Enabled(s, a)
    ensures Tracking(Apply(maxRate, s, a))
  {
    match a
    case Append(t) => AppendTracks(s, t);
    case Iterate(tick, statOk) => IterateTracks(maxRate, s, tick, statOk);
    case _ =>
  }

  lemma RateStep(maxRate: nat, s: State, a: Action)
    requires s.linesThisSecond == s.taken - s.takenAtTick && s.linesThisSecond <= maxRate && Enabled(s, a)
    ensures var s' := Apply(maxRate, s, a); s'.linesThisSecond == s'.taken - s'.takenAtTick && s'.linesThisSecond <= maxRate
  {
  }

  lemma InvStep(maxRate: nat, s: State, a: Action)
    requires Inv(maxRate, s) && Enabled(s, a)
    ensures Inv(maxRate, Apply(maxRate, s, a))
  {
    TrackingStep(maxRate, s, a);
    RateStep(maxRate, s, a);
  }

  lemma {:induction false} InvRun(maxRate: nat, s: State, acts: seq<Action>)
    requires Inv(maxRate, s) && CanRun(maxRate, s, acts)
    ensures Inv(maxRate, Run(maxRate, s, acts))
    decreases |acts|
  {
    if acts != [] {
      InvStep(maxRate, s, acts[0]);
      InvRun(maxRate, Apply(maxRate, s, acts[0]), acts[1..]);
    }
  }

  // ---------------------------------------------------------------- results

  /**
    Over every run, since the last seek, and if the file has not been cut: the complete lines taken make up
    exactly the stretch read so far if and only if no part of a line was ever thrown away, which also is
    when `offset` still equals the read position; and then what was passed on is exactly the non-empty
    trimmed and cut lines of that stretch, once each and in order.
  */
  lemma TailExactUnlessLost(maxRate: nat, file: string, before: seq<string>, acts: seq<Action>)
    requires CanRun(maxRate, Opened(file, before), acts)
    ensures var s := Run(maxRate, Opened(file, before), acts);
      && (!s.shrunk ==> s.start <= s.offset <= s.pos <= |s.file| && s.offset == s.start + |Flat(s.consumed)|)
      && (!s.shrunk ==> (s.lost == 0 <==> s.file[s.start..s.pos] == Flat(s.consumed)))
      && (!s.shrunk ==> (s.lost == 0 <==> s.offset == s.pos))
      && (!s.shrunk && s.lost == 0 ==>
           s.emittedBefore <= |s.emitted| && s.emitted[s.emittedBefore..] == EmissionsOf(LinesOf(s.file[s.start..s.pos])))
      && s.takenAtTick <= s.taken <= s.takenAtTick + maxRate
  {
    assert Inv(maxRate, Opened(file, before));
    InvRun(maxRate, Opened(file, before), acts);
    SinceSeek(Run(maxRate, Opened(file, before), acts));
  }

  lemma SinceSeek(s: State)
    requires Tracking(s)
    ensures !s.shrunk ==> s.start <= s.offset <= s.pos <= |s.file| && s.offset == s.start + |Flat(s.consumed)|
    ensures !s.shrunk ==> (s.lost == 0 <==> s.file[s.start..s.pos] == Flat(s.consumed))
    ensures !s.shrunk ==> (s.lost == 0 <==> s.offset == s.pos)
    ensures !s.shrunk && s.lost == 0 ==>
      s.emittedBefore <= |s.emitted| && s.emitted[s.emittedBefore..] == EmissionsOf(LinesOf(s.file[s.start..s.pos]))
  {
    LinesOfFlat(s.consumed);
    if !s.shrunk {
      assert |s.file[s.start..s.pos]| == s.pos - s.start;
    }
  }

  /** The owner only ever appends whole lines, and no read fails in the middle of one. */
  predicate Orderly(a: Action) {
    match a
    case Append(t) => WholeLines(t)
    case Truncate(_) => false
    case ReadFails(_, k) => k == 0
    case _ => true
  }

  ghost predicate OrderlyState(s: State) {
    !s.shrunk && s.lost == 0 && WholeLines(Unread(s)) && s.pos <= |s.file|
  }

  lemma ConsumeOrderly(s: State)
    requires OrderlyState(s) && IndexOf(Unread(s), NL) < |Unread(s)|
    ensures OrderlyState(Consume(s))
  {
    var u := Unread(s);
    var n := IndexOf(u, NL);
    var rest := Unread(Consume(s));
    assert rest == u[n + 1..];
    assert rest != "" ==> rest[|rest| - 1] == u[|u| - 1];
  }

  lemma AtEndOrderly(s: State, statOk: bool)
    requires OrderlyState(s) && s.offset <= |s.file| && IndexOf(Unread(s), NL) == |Unread(s)|
    ensures AtEnd(s, statOk) == s
  {
    assert Unread(s) == "";
  }

  lemma OrderlyIterate(maxRate: nat, s: State, tick: bool, statOk: bool)
    requires OrderlyState(s) && s.offset <= |s.file| && !s.stopped
    ensures var s' := Apply(maxRate, s, Iterate(tick, statOk));
      OrderlyState(s') && s'.start == s.start && s'.emittedBefore == s.emittedBefore
  {
    var s1 := Ticked(s, tick);
    assert OrderlyState(s1) && Unread(s1) == Unread(s);
    if IndexOf(Unread(s1), NL) < |Unread(s1)| {
      ConsumeOrderly(s1);
    } else {
      AtEndOrderly(s1, statOk);
    }
  }

  lemma AppendOrderly(s: State, t: string)
    requires OrderlyState(s) && WholeLines(t)
    ensures OrderlyState(s.(file := s.file + t))
  {
    assert Unread(s.(file := s.file + t)) == Unread(s) + t;
  }

  lemma OrderlyStep(maxRate: nat, s: State, a: Action)
    requires Tracking(s) && OrderlyState(s) && Enabled(s, a) && Orderly(a)
    ensures var s' := Apply(maxRate, s, a);
      OrderlyState(s') && s'.start == s.start && s'.emittedBefore == s.emittedBefore
  {
    match a
    case Append(t) => AppendOrderly(s, t);
    case Iterate(tick, statOk) => OrderlyIterate(maxRate, s, tick, statOk);
    case _ =>
  }

  lemma {:induction false} OrderlyRun(maxRate: nat, s: State, acts: seq<Action>)
    requires Inv(maxRate, s) && OrderlyState(s) && CanRun(maxRate, s, acts)
    requires forall i :: 0 <= i < |acts| ==> Orderly(acts[i])
    ensures var s' := Run(maxRate, s, acts);
      OrderlyState(s') && s'.start == s.start && s'.emittedBefore == s.emittedBefore
    decreases |acts|
  {
    if acts != [] {
      InvStep(maxRate, s, acts[0]);
      OrderlyStep(maxRate, s, acts[0]);
      OrderlyRun(maxRate, Apply(maxRate, s, acts[0]), acts[1..]);
    }
  }

  /**
    Tailing is exact when the file never shrinks and every append is whole lines: after the seek to the
    end, what is passed on is the non-empty trimmed and cut lines of what was appended and read, and
    `offset` is the start plus the characters consumed.
  */
  lemma TailIsExact(maxRate: nat, file: string, before: seq<string>, acts: seq<Action>)
    requires CanRun(maxRate, Opened(file, before), acts)
    requires forall i :: 0 <= i < |acts| ==> Orderly(acts[i])
    ensures var s := Run(maxRate, Opened(file, before), acts);
      && |file| <= s.offset == s.pos <= |s.file|
      && |before| <= |s.emitted|
      && s.emitted[|before|..] == EmissionsOf(LinesOf(s.file[|file|..s.offset]))
  {
    var s0 := Opened(file, before);
    assert Inv(maxRate, s0) && OrderlyState(s0);
    TailExactUnlessLost(maxRate, file, before, acts);
    OrderlyRun(maxRate, s0, acts);
  }

  // ---------------------------------------------------------------- a file that was cut or rotated

  /** A turn that takes place: the loop runs, and a tick or what is left of the allowance lets it read. */
  predicate MayRead(maxRate: nat, s: State, tick: bool) {
    !s.stopped && (s.linesThisSecond < maxRate || (tick && maxRate > 0))
  }

  /** A turn that finds the file shorter than `offset` goes back to its start, and passes on nothing. */
  lemma CutRestarts(maxRate: nat, s: State, tick: bool)
    requires Tracking(s) && MayRead(maxRate, s, tick) && |s.file| < s.offset
    ensures Enabled(s, Iterate(tick, true))
    ensures var s' := Apply(maxRate, s, Iterate(tick, true));
      && s'.pos == 0 && s'.offset == 0 && s'.file == s.file && s'.emitted == s.emitted && !s'.stopped
      && s'.start == 0 && s'.emittedBefore == |s.emitted| && s'.lost == 0 && !s'.shrunk
  {
    assert Unread(Ticked(s, tick)) == "";
  }

  /**
    From every reachable state in which the file is shorter than `offset`, and ends with a whole line: after
    the next turn, and as long as the file then only grows by whole lines, what is passed on are the lines
    of the new file from its first character on, once each and in order.
  */
  lemma RestartIsExact(maxRate: nat, s: State, tick: bool, acts: seq<Action>)
    requires Inv(maxRate, s) && MayRead(maxRate, s, tick) && |s.file| < s.offset && WholeLines(s.file)
    requires CanRun(maxRate, Apply(maxRate, s, Iterate(tick, true)), acts)
    requires forall i :: 0 <= i < |acts| ==> Orderly(acts[i])
    ensures var s' := Run(maxRate, Apply(maxRate, s, Iterate(tick, true)), acts);
      && s'.offset == s'.pos <= |s'.file|
      && s'.emitted == s.emitted + EmissionsOf(LinesOf(s'.file[..s'.offset]))
  {
    var s1 := Apply(maxRate, s, Iterate(tick, true));
    CutRestarts(maxRate, s, tick);
    InvStep(maxRate, s, Iterate(tick, true));
    assert Unread(s1) == s1.file;
    OrderlyRun(maxRate, s1, acts);
    InvRun(maxRate, s1, acts);
    var s' := Run(maxRate, s1, acts);
    SinceSeek(s');
    assert s'.file[0..s'.pos] == s'.file[..s'.offset];
    EmittedGrows(maxRate, s1, acts);
    Resume(s.emitted, s'.emitted);
  }

  lemma Resume(before: seq<string>, after: seq<string>)
    requires before <= after
    ensures after == before + after[|before|..]
  {
  }

  // ---------------------------------------------------------------- the loop gets on

  /** A turn that may read takes the next complete line, if there is one: all of it, and nothing else. */
  lemma TurnTakesLine(maxRate: nat, s: State, tick: bool, statOk: bool)
    requires MayRead(maxRate, s, tick) && IndexOf(Unread(s), NL) < |Unread(s)|
    ensures Enabled(s, Iterate(tick, statOk))
    ensures var u := Unread(s);
      var line := u[..IndexOf(u, NL) + 1];
      var s' := Apply(maxRate, s, Iterate(tick, statOk));
      && s'.pos == s.pos + |line| && s'.offset == s.offset + |line| && s'.file == s.file
      && s'.emitted == s.emitted + Emission(line) && s'.stopped == s.stopped
  {
  }

  /** Without a tick and with the allowance used up a turn does nothing. */
  lemma TurnWaits(maxRate: nat, s: State, statOk: bool)
    requires !s.stopped && s.linesThisSecond >= maxRate
    ensures Apply(maxRate, s, Iterate(false, statOk)) == s
  {
  }

  lemma RunOne(maxRate: nat, s: State, a: Action, rest: seq<Action>) returns (acts: seq<Action>)
    requires Enabled(s, a) && CanRun(maxRate, Apply(maxRate, s, a), rest)
    ensures acts == [a] + rest && CanRun(maxRate, s, acts) && Run(maxRate, s, acts) == Run(maxRate, Apply(maxRate, s, a), rest)
  {
    acts := [a] + rest;
    assert acts[1..] == rest;
  }

  lemma NextLineThere(s: State)
    requires OrderlyState(s) && Unread(s) != ""
    ensures IndexOf(Unread(s), NL) < |Unread(s)|
  {
    assert Unread(s)[|Unread(s)| - 1] == NL;
  }

  lemma TurnGetsOn(maxRate: nat, s: State)
    requires maxRate >= 1 && Inv(maxRate, s) && OrderlyState(s) && !s.stopped && Unread(s) != ""
    ensures var s' := Apply(maxRate, s, Iterate(true, true));
      && Inv(maxRate, s') && OrderlyState(s') && !s'.stopped && |Unread(s')| < |Unread(s)|
      && s'.file == s.file && s'.start == s.start && s'.emittedBefore == s.emittedBefore
  {
    NextLineThere(s);
    TurnTakesLine(maxRate, s, true, true);
    InvStep(maxRate, s, Iterate(true, true));
    OrderlyIterate(maxRate, s, true, true);
  }

  /** With a tick before each turn the loop reads all there is, whatever was left of the allowance. */
  lemma {:induction false} ReadsAll(maxRate: nat, s: State) returns (acts: seq<Action>)
    requires maxRate >= 1 && Inv(maxRate, s) && OrderlyState(s) && !s.stopped
    ensures CanRun(maxRate, s, acts) && forall i :: 0 <= i < |acts| ==> acts[i] == Iterate(true, true)
    ensures var s' := Run(maxRate, s, acts);
      && s'.pos == |s.file| && s'.file == s.file && s'.start == s.start && s'.emittedBefore == s.emittedBefore
      && Inv(maxRate, s') && OrderlyState(s')
    decreases |Unread(s)|
  {
    acts := [];
    if Unread(s) != "" {
      TurnGetsOn(maxRate, s);
      acts := ReadsAll(maxRate, Apply(maxRate, s, Iterate(true, true)));
      acts := RunOne(maxRate, s, Iterate(true, true), acts);
    }
  }

  lemma WholeFile(s: State)
    requires s.offset == |s.file|
    ensures s.file[..s.offset] == s.file
  {
  }

  /** So a cut file can be read to its end from its first character, and every line of it is passed on. */
  lemma RestartReadsAll(maxRate: nat, s: State) returns (acts: seq<Action>)
    requires maxRate >= 1 && Inv(maxRate, s) && !s.stopped && |s.file| < s.offset && WholeLines(s.file)
    ensures CanRun(maxRate, s, acts) && forall i :: 0 <= i < |acts| ==> acts[i] == Iterate(true, true)
    ensures Run(maxRate, s, acts).emitted == s.emitted + EmissionsOf(LinesOf(s.file))
  {
    var a := Iterate(true, true);
    var s1 := Apply(maxRate, s, a);
    CutRestarts(maxRate, s, true);
    InvStep(maxRate, s, a);
    assert Unread(s1) == s1.file;
    var rest := ReadsAll(maxRate, s1);
    RestartIsExact(maxRate, s, true, rest);
    WholeFile(Run(maxRate, s1, rest));
    acts := RunOne(maxRate, s, a, rest);
  }

  /** What has been passed on is never taken back. */
  lemma {:induction false} EmittedGrows(maxRate: nat, s: State, acts: seq<Action>)
    requires CanRun(maxRate, s, acts)
    ensures s.emitted <= Run(maxRate, s, acts).emitted
    decreases |acts|
  {
    if acts != [] {
      assert s.emitted <= Apply(maxRate, s, acts[0]).emitted;
      EmittedGrows(maxRate, Apply(maxRate, s, acts[0]), acts[1..]);
    }
  }

  // ---------------------------------------------------------------- a line in two pieces

  /** A complete line is appended and read. */
  function WholeAppend(line: string): seq<Action> { [Append(line), Iterate(false, true)] }

  /** The same line in two pieces, with a read in between. */
  function SplitAppend(first: string, second: string): seq<Action> {
    [Append(first), Iterate(false, true), Append(second), Iterate(false, true)]
  }

  lemma TwoSteps(maxRate: nat, s: State, a: Action, b: Action)
    requires Enabled(s, a) && Enabled(Apply(maxRate, s, a), b)
    ensures CanRun(maxRate, s, [a, b]) && Run(maxRate, s, [a, b]) == Apply(maxRate, Apply(maxRate, s, a), b)
  {
    assert [a, b][1..] == [b] && [b][1..] == [];
    var s1 := Apply(maxRate, s, a);
    assert CanRun(maxRate, s1, [b]) && Run(maxRate, s1, [b]) == Apply(maxRate, s1, b);
  }

  lemma ReadsWhole(maxRate: nat, s: State, line: string)
    requires WholeLine(line) && s.pos == |s.file| && !s.stopped && s.linesThisSecond < maxRate
    ensures CanRun(maxRate, s, WholeAppend(line))
    ensures var s' := Run(maxRate, s, WholeAppend(line));
      s'.emitted == s.emitted + Emission(line) && s'.file == s.file + line && s'.lost == s.lost
  {
    assert Unread(Apply(maxRate, s, Append(line))) == line;
    assert line[..|line|] == line;
    TwoSteps(maxRate, s, Append(line), Iterate(false, true));
  }

  lemma ReadsPiece(maxRate: nat, s: State, piece: string)
    requires IndexOf(piece, NL) == |piece| && s.pos == |s.file| && !s.stopped && s.linesThisSecond < maxRate && s.offset <= |s.file|
    ensures CanRun(maxRate, s, WholeAppend(piece))
    ensures var s' := Run(maxRate, s, WholeAppend(piece));
      && s'.emitted == s.emitted && s'.file == s.file + piece && s'.pos == |s'.file| && !s'.stopped
      && s'.linesThisSecond == s.linesThisSecond && s'.offset == s.offset && s'.lost == s.lost + |piece|
  {
    assert Unread(Apply(maxRate, s, Append(piece))) == piece;
    TwoSteps(maxRate, s, Append(piece), Iterate(false, true));
  }

  lemma {:induction false} RunThen(maxRate: nat, s: State, a: seq<Action>, b: seq<Action>)
    requires CanRun(maxRate, s, a) && CanRun(maxRate, Run(maxRate, s, a), b)
    ensures CanRun(maxRate, s, a + b) && Run(maxRate, s, a + b) == Run(maxRate, Run(maxRate, s, a), b)
    decreases |a|
  {
    if a == [] {
      assert a + b == b;
    } else {
      assert (a + b)[1..] == a[1..] + b;
      RunThen(maxRate, Apply(maxRate, s, a[0]), a[1..], b);
    }
  }

  /**
    Whole lines are needed: of a line appended in two pieces with a read in between, only the second piece
    is passed on, whatever the pieces and the file.
  */
  lemma SplitAppendLosesText(maxRate: nat, file: string, before: seq<string>, first: string, second: string)
    requires maxRate >= 1 && IndexOf(first, NL) == |first| && WholeLine(second)
    ensures CanRun(maxRate, Opened(file, before), SplitAppend(first, second))
    ensures var s := Run(maxRate, Opened(file, before), SplitAppend(first, second));
      s.emitted == before + Emission(second) && s.file == file + first + second && s.lost == |first|
  {
    var s0 := Opened(file, before);
    ReadsPiece(maxRate, s0, first);
    var s1 := Run(maxRate, s0, WholeAppend(first));
    ReadsWhole(maxRate, s1, second);
    RunThen(maxRate, s0, WholeAppend(first), WholeAppend(second));
    assert WholeAppend(first) + WholeAppend(second) == SplitAppend(first, second);
  }

  /** Where the first piece is cut off, no line comes out the same as a whole, unless nothing was cut off. */
  ghost predicate SplitIsHarmless(first: string) {
    forall rest: string :: IndexOf(rest, NL) == |rest| ==> SameOut(first, rest)
  }

  /** What is passed on of the rest of a line alone is what is passed on of the whole line. */
  predicate SameOut(first: string, rest: string) { Emission(rest + [NL]) == Emission(first + (rest + [NL])) }

  lemma EmissionOfPlain(t: string)
    requires t != "" && t[|t| - 1] != '\r' && t[|t| - 1] != '\n'
    ensures Emission(t + [NL]) == [Cut(t)]
  {
    assert (t + [NL])[..|t|] == t;
    assert TrimBreaks(t) == t;
  }

  /**
    A read between the two pieces of a line does no harm, whatever the second piece, if and only if the
    first piece is empty.
  */
  lemma SplitHarmlessIff(first: string)
    requires IndexOf(first, NL) == |first|
    ensures SplitIsHarmless(first) <==> first == ""
  {
    if first == "" {
      forall rest: string ensures SameOut(first, rest) {
        assert first + (rest + [NL]) == rest + [NL];
      }
    } else {
      Harmed(first);
    }
  }

  /** The second piece "x": alone it comes out as "x", and at the end of a longer line it does not. */
  lemma Harmed(first: string)
    requires first != "" && IndexOf(first, NL) == |first|
    ensures IndexOf("x", NL) == |"x"| && !SameOut(first, "x")
  {
    var whole := first + "x";
    IndexOfIs("x", NL, 1);
    EmissionOfPlain("x");
    EmissionOfPlain(whole);
    Associate(first, "x", [NL]);
    CutLengths(first);
  }

  lemma CutLengths(first: string)
    requires first != ""
    ensures |Cut("x")| == 1 && |Cut(first + "x")| >= 2
  {
  }
}
