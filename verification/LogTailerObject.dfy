/** `tailFile` as the program has it: a loop that updates its offset, its rate counter and the reader's position. */
module LogTailerObject {
  import opened Text
  import opened LogTailer
  import LastLines

  function NonBlank(lines: seq<string>): seq<string> {
    if lines == [] then [] else
      var n := |lines| - 1;
      NonBlank(lines[..n]) + if TrimSpace(lines[n]) != "" then [lines[n]] else []
  }

  /** `at` lists, in ascending order, exactly the places of the lines with something on them. */
  ghost predicate PlacesOfNonBlank(at: seq<nat>, lines: seq<string>) {
    && (forall j, k :: 0 <= j < k < |at| ==> at[j] < at[k])
    && (forall k :: 0 <= k < |at| ==> at[k] < |lines|)
    && forall i :: 0 <= i < |lines| ==> (i in at <==> !Blank(lines[i]))
  }

  /** The non-blank lines are those with a character that is no white space, in their order, and no others. */
  lemma {:induction false} NonBlankAre(lines: seq<string>) returns (at: seq<nat>)
    ensures PlacesOfNonBlank(at, lines)
    ensures |NonBlank(lines)| == |at| && forall k :: 0 <= k < |at| ==> NonBlank(lines)[k] == lines[at[k]]
  {
    at := [];
    if lines != [] {
      var n := |lines| - 1;
      at := NonBlankAre(lines[..n]);
      BlankIff(lines[n]);
      if TrimSpace(lines[n]) != "" {
        at := OneMorePlace(lines, at);
      } else {
        SamePlaces(lines, at);
      }
    }
  }

  lemma OneMorePlace(lines: seq<string>, at: seq<nat>) returns (more: seq<nat>)
    requires lines != [] && PlacesOfNonBlank(at, lines[..|lines| - 1])
    requires !Blank(lines[|lines| - 1])
    ensures more == at + [|lines| - 1] && PlacesOfNonBlank(more, lines)
  {
    var n := |lines| - 1;
    more := at + [n];
    forall i | 0 <= i < n ensures i in more <==> i in at && lines[..n][i] == lines[i] {
    }
  }

  lemma SamePlaces(lines: seq<string>, at: seq<nat>)
    requires lines != [] && PlacesOfNonBlank(at, lines[..|lines| - 1])
    requires Blank(lines[|lines| - 1])
    ensures PlacesOfNonBlank(at, lines)
  {
    var n := |lines| - 1;
    forall i | 0 <= i < n ensures lines[..n][i] == lines[i] {
    }
  }

  lemma {:induction false} RunSnoc(maxRate: nat, s: State, acts: seq<Action>, a: Action)
    requires CanRun(maxRate, s, acts) && Enabled(Run(maxRate, s, acts), a)
    ensures CanRun(maxRate, s, acts + [a]) && Run(maxRate, s, acts + [a]) == Apply(maxRate, Run(maxRate, s, acts), a)
    decreases |acts|
  {
    if acts == [] {
      assert ([] + [a])[1..] == [];
    } else {
      RunSnoc(maxRate, Apply(maxRate, s, acts[0]), acts[1..], a);
      assert (acts + [a])[1..] == acts[1..] + [a];
    }
  }

  class Tailer {
    const maxRate: nat
    var file: string
    var pos: nat
    var offset: nat
    var linesThisSecond: nat
    var emitted: seq<string>
    var stopped: bool
    ghost var start: nat
    ghost var consumed: seq<string>
    ghost var lost: nat
    ghost var shrunk: bool
    ghost var emittedBefore: nat
    ghost var taken: nat
    ghost var takenAtTick: nat

    ghost function Model(): State
      reads this
    {
      State(file, pos, offset, linesThisSecond, emitted, stopped, start, consumed, lost, shrunk, emittedBefore, taken, takenAtTick)
    }

    /** The lines at the end of the file are passed on first; then the reader is moved to the end. */
    constructor (file: string, history: seq<string>, maxRate: nat)
      ensures this.maxRate == maxRate && Model() == Opened(file, history)
    {
      this.maxRate := maxRate;
      this.file, pos, offset, linesThisSecond, emitted, stopped := file, |file|, |file|, 0, history, false;
      start, consumed, lost, shrunk, emittedBefore, taken, takenAtTick := |file|, [], 0, false, |history|, 0, 0;
    }

    /** What `reader.ReadString('\n')` finds: the next line with its newline, or the rest and the end of the file. */
    method ReadString() returns (line: string, eof: bool)
      ensures var u := Unread(Model());
        eof == (IndexOf(u, NL) == |u|) && line == (if eof then u else u[..IndexOf(u, NL) + 1])
    {
      var u := if pos <= |file| then file[pos..] else "";
      var n := IndexOf(u, NL);
      eof := n == |u|;
      line := if eof then u else u[..n + 1];
    }

    /** A complete line: count it, trim it, cut it, and pass on what is left. */
    method TakeLine(line: string)
      modifies this
      ensures Model() == Advanced(old(Model()), line)
      ensures offset == old(offset) + |line| && emitted == old(emitted) + Emission(line)
    {
      pos, offset := pos + |line|, offset + |line|;
      linesThisSecond := linesThisSecond + 1;
      consumed, taken := consumed + [line], taken + 1;
      var trimmed := TrimBreaks(line);
      if |trimmed| > MAX_LINE {
        trimmed := trimmed[..MAX_LINE];
      }
      if trimmed != "" {
        emitted := emitted + [trimmed];
      }
    }

    /** The end of the file: start over if it was cut or rotated; the rest that came with the end is dropped. */
    method ReachEnd(rest: string, statOk: bool)
      requires rest == Unread(Model())
      modifies this
      ensures Model() == AtEnd(old(Model()), statOk)
      ensures emitted == old(emitted) && file == old(file)
      ensures statOk && |file| < old(offset) ==> pos == 0 && offset == 0
      ensures !(statOk && |file| < old(offset)) ==> offset == old(offset) && pos == old(pos) + |rest|
    {
      if statOk && |file| < offset {
        pos, offset := 0, 0;
        start, consumed, lost, shrunk, emittedBefore := 0, [], 0, false, |emitted|;
      } else {
        pos, lost := pos + |rest|, lost + |rest|;
      }
    }

    method Tick()
      modifies this`linesThisSecond, this`takenAtTick
      ensures Model() == Ticked(old(Model()), true)
    {
      linesThisSecond, takenAtTick := 0, taken;
    }

    method OneTurn(tick: bool, statOk: bool)
      requires !stopped
      modifies this
      ensures Model() == Apply(maxRate, old(Model()), Iterate(tick, statOk))
      ensures statOk && old(Tracking(Model()) && MayRead(maxRate, Model(), tick) && |file| < offset) ==>
        pos == 0 && offset == 0 && emitted == old(emitted)
    {
      if Tracking(Model()) && MayRead(maxRate, Model(), tick) && |file| < offset {
        CutRestarts(maxRate, Model(), tick);
      }
      if tick {
        Tick();
      }
      assert Model() == Ticked(old(Model()), tick);
      if linesThisSecond < maxRate {
        AfterRateCheck(statOk);
      }
    }

    method AfterRateCheck(statOk: bool)
      modifies this
      ensures Model() == ReadOn(old(Model()), statOk)
    {
      ghost var u := Unread(Model());
      var line, eof := ReadString();
      if eof {
        assert line == u;
        ReachEnd(line, statOk);
      } else {
        assert line == u[..IndexOf(u, NL) + 1];
        TakeLine(line);
      }
    }

    /** Anything but an iteration of the loop: what happens to the file, a failing read, the stop signal. */
    method Meanwhile(a: Action)
      requires Enabled(Model(), a) && !a.Iterate?
      modifies this
      ensures Model() == Apply(maxRate, old(Model()), a)
    {
      if a.Append? {
        file := file + a.text;
      } else if a.Truncate? {
        file, shrunk := file[..a.size], true;
      } else if a.Stop? {
        stopped := true;
      } else {
        if a.tick {
          Tick();
        }
        if linesThisSecond < maxRate {
          pos, lost := pos + a.partial, lost + a.partial;
        }
      }
    }

    method IsEnabled(a: Action) returns (b: bool)
      ensures b == Enabled(Model(), a)
    {
      match a {
        case Append(_) => b := true;
        case Truncate(size) => b := size < |file|;
        case Stop => b := true;
        case Iterate(_, _) => b := !stopped;
        case ReadFails(_, k) => b := !stopped && k <= IndexOf(if pos <= |file| then file[pos..] else "", NL);
      }
    }

    /** The loop, with everything that happens to the file in between; an impossible entry of the schedule is skipped. */
    method Follow(schedule: seq<Action>) returns (ghost acts: seq<Action>)
      modifies this
      ensures CanRun(maxRate, old(Model()), acts) && Model() == Run(maxRate, old(Model()), acts)
      ensures forall k :: 0 <= k < |acts| ==> acts[k] in schedule
    {
      acts := [];
      for i := 0 to |schedule|
        invariant CanRun(maxRate, old(Model()), acts) && Model() == Run(maxRate, old(Model()), acts)
        invariant forall k :: 0 <= k < |acts| ==> acts[k] in schedule
      {
        var able := IsEnabled(schedule[i]);
        if able {
          RunSnoc(maxRate, old(Model()), acts, schedule[i]);
          if schedule[i].Iterate? {
            OneTurn(schedule[i].tick, schedule[i].statOk);
          } else {
            Meanwhile(schedule[i]);
          }
          acts := acts + [schedule[i]];
        }
      }
    }
  }

  /**
    A tailer from its start to its stop, under any schedule of appends and loop turns. When the schedule
    is orderly, it passes on the non-blank lines among the last `tailLines` of the file, and after them
    exactly the non-empty trimmed and cut lines of what it has read since.
  */
  method TailFile(file: string, tailLines: int, maxRate: int, schedule: seq<Action>)
    returns (emitted: seq<string>, final: string, offset: nat)
    ensures (forall i :: 0 <= i < |schedule| ==> Orderly(schedule[i])) ==>
      && |file| <= offset <= |final|
      && emitted == NonBlank(LastLines.Shown(file, if tailLines <= 0 then 50 else tailLines))
                    + EmissionsOf(LinesOf(final[|file|..offset]))
  {
    var history := History(file, if tailLines <= 0 then 50 else tailLines);
    var t := new Tailer(file, history, if maxRate <= 0 then 500 else maxRate);
    ghost var acts := t.Follow(schedule);
    emitted, final, offset := t.emitted, t.file, t.offset;
    if forall k :: 0 <= k < |schedule| ==> Orderly(schedule[k]) {
      ExactAfterHistory(t.maxRate, file, history, acts);
    }
  }

  lemma ExactAfterHistory(maxRate: nat, file: string, history: seq<string>, acts: seq<Action>)
    requires CanRun(maxRate, Opened(file, history), acts)
    requires forall i :: 0 <= i < |acts| ==> Orderly(acts[i])
    ensures var s := Run(maxRate, Opened(file, history), acts);
      && |file| <= s.offset <= |s.file|
      && s.emitted == history + EmissionsOf(LinesOf(s.file[|file|..s.offset]))
  {
    TailIsExact(maxRate, file, history, acts);
    EmittedGrows(maxRate, Opened(file, history), acts);
    var e := Run(maxRate, Opened(file, history), acts).emitted;
    assert e == e[..|history|] + e[|history|..];
  }

  method History(file: string, n: nat) returns (history: seq<string>)
    requires n > 0
    ensures history == NonBlank(LastLines.Shown(file, n))
  {
    var initial := LastLines.ReadLastLines(file, n);
    history := [];
    for i := 0 to |initial|
      invariant history == NonBlank(initial[..i])
    {
      assert initial[..i + 1][..i] == initial[..i];
      if TrimSpace(initial[i]) != "" {
        history := history + [initial[i]];
      }
    }
    assert initial[..|initial|] == initial;
  }
}
