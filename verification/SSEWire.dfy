/**
  The bytes on the wire. `Parse` is the event stream interpretation of sections 9.2.5 and 9.2.6 of the
  WHATWG HTML Living Standard, on decoded characters; the results below read the hub's frames back from it.
*/
module SSEWire {
  import opened Sequences
  import opened LogEntries
  import opened SSEHub

  const CR := '\r'
  const LF := '\n'

  // ---------------------------------------------------------------- writing

  const GREETING := ": connected to sugi sse\n\n"

  function Bytes(m: Msg): string {
    match m
    case Metrics(j) => "event: metrics\ndata: " + j + "\n\n"
    case Log(j) => "event: log\ndata: " + j + "\n\n"
    case KeepAlive => ": keep-alive\n\n"
  }

  function AllBytes(ms: seq<Msg>): string {
    if ms == [] then "" else Bytes(ms[0]) + AllBytes(ms[1..])
  }

  /** What the handler writes: the greeting, the latest snapshot if there is one, then what it takes from its channel. */
  function Response(latest: Option<string>, taken: seq<Msg>): string {
    GREETING + (if latest.Some? then Bytes(Metrics(latest.value)) else "") + AllBytes(taken)
  }

  // ---------------------------------------------------------------- reading

  datatype Event = Event(kind: string, data: string)

  predicate LineBreak(ch: char) { ch == CR || ch == LF }

  /** Length of the first line, without its terminator. */
  function LineLength(t: string): (n: nat)
    ensures n <= |t| && (n < |t| ==> LineBreak(t[n]))
  {
    if t == "" || LineBreak(t[0]) then 0 else 1 + LineLength(t[1..])
  }

  datatype Buffers = Buffers(data: string, kind: string)

  const EMPTY := Buffers("", "")

  function IndexOfColon(line: string): (n: nat)
    ensures n <= |line|
  {
    if line == "" || line[0] == ':' then 0 else 1 + IndexOfColon(line[1..])
  }

  function Field(b: Buffers, name: string, value: string): Buffers {
    if name == "event" then b.(kind := value)
    else if name == "data" then b.(data := b.data + value + [LF])
    else b  // `id` and `retry` set nothing that is observed here; other names are ignored
  }

  function Line(b: Buffers, line: string): Buffers {
    var n := IndexOfColon(line);
    if n == 0 && line != "" then b
    else if n < |line| then
      var v := line[n + 1..];
      Field(b, line[..n], if v != "" && v[0] == ' ' then v[1..] else v)
    else Field(b, line, "")
  }

  /** An empty line dispatches what has been collected. */
  function Fire(b: Buffers): seq<Event> {
    if b.data == "" then []
    else
      var d := if b.data[|b.data| - 1] == LF then b.data[..|b.data| - 1] else b.data;
      [Event(if b.kind == "" then "message" else b.kind, d)]
  }

  /** A last block that no empty line ends is discarded. */
  function Parse(t: string, b: Buffers): seq<Event>
    decreases |t|
  {
    var n := LineLength(t);
    if n == |t| then []
    else
      var rest := if t[n] == CR && n + 1 < |t| && t[n + 1] == LF then t[n + 2..] else t[n + 1..];
      if n == 0 then Fire(b) + Parse(rest, EMPTY) else Parse(rest, Line(b, t[..n]))
  }

  // ---------------------------------------------------------------- round trip

  predicate OneLine(j: string) { forall i :: 0 <= i < |j| ==> !LineBreak(j[i]) }

  predicate Printable(m: Msg) { m.KeepAlive? || OneLine(m.json) }

  function EventOf(m: Msg): seq<Event> {
    match m
    case Metrics(j) => [Event("metrics", j)]
    case Log(j) => [Event("log", j)]
    case KeepAlive => []
  }

  function Events(ms: seq<Msg>): seq<Event> {
    if ms == [] then [] else EventOf(ms[0]) + Events(ms[1..])
  }

  lemma {:induction false} LineLengthOf(line: string, rest: string)
    requires OneLine(line)
    ensures LineLength(line + [LF] + rest) == |line|
  {
    var t := line + [LF] + rest;
    if line != "" {
      assert OneLine(line[1..]) by {
        assert forall i :: 0 <= i < |line| - 1 ==> line[1..][i] == line[i + 1];
      }
      LineLengthOf(line[1..], rest);
      assert t[1..] == line[1..] + [LF] + rest;
    }
  }

  lemma ParseLine(line: string, rest: string, b: Buffers)
    requires OneLine(line)
    ensures Parse(line + [LF] + rest, b) == if line == "" then Fire(b) + Parse(rest, EMPTY) else Parse(rest, Line(b, line))
  {
    var t := line + [LF] + rest;
    LineLengthOf(line, rest);
    assert t[|line|] == LF && t[..|line|] == line && t[|line| + 1..] == rest;
  }

  /** Lines, each ended by a line feed. */
  function Unlines(ls: seq<string>): string {
    if ls == [] then "" else ls[0] + [LF] + Unlines(ls[1..])
  }

  function Interpret(ls: seq<string>, b: Buffers): seq<Event> {
    if ls == [] then []
    else if ls[0] == "" then Fire(b) + Interpret(ls[1..], EMPTY)
    else Interpret(ls[1..], Line(b, ls[0]))
  }

  lemma {:induction false} ParseUnlines(ls: seq<string>, b: Buffers)
    requires forall i :: 0 <= i < |ls| ==> OneLine(ls[i])
    ensures Parse(Unlines(ls), b) == Interpret(ls, b)
    decreases |ls|
  {
    if ls != [] {
      ParseLine(ls[0], Unlines(ls[1..]), b);
      ParseUnlines(ls[1..], if ls[0] == "" then EMPTY else Line(b, ls[0]));
    }
  }

  function MsgLines(m: Msg): seq<string> {
    match m
    case Metrics(j) => ["event: metrics", "data: " + j, ""]
    case Log(j) => ["event: log", "data: " + j, ""]
    case KeepAlive => [": keep-alive", ""]
  }

  function AllLines(ms: seq<Msg>): seq<string> {
    if ms == [] then [] else MsgLines(ms[0]) + AllLines(ms[1..])
  }

  lemma UnlinesTwo(a: string, rest: seq<string>)
    ensures Unlines([a, ""] + rest) == a + "\n\n" + Unlines(rest)
  {
    var ls := [a, ""] + rest;
    assert ls[1..] == [""] + rest && ls[1..][1..] == rest;
    calc {
      Unlines(ls);
      a + [LF] + ("" + [LF] + Unlines(rest));
      a + "\n\n" + Unlines(rest);
    }
  }

  lemma UnlinesEvent(head: string, data: string, rest: seq<string>)
    ensures Unlines([head, data, ""] + rest) == head + [LF] + (data + "\n\n" + Unlines(rest))
  {
    var ls := [head, data, ""] + rest;
    assert ls[1..] == [data, ""] + rest;
    UnlinesTwo(data, rest);
  }

  lemma BytesAreLines(m: Msg, rest: seq<string>)
    ensures Bytes(m) + Unlines(rest) == Unlines(MsgLines(m) + rest)
  {
    match m
    case Metrics(j) =>
      UnlinesEvent("event: metrics", "data: " + j, rest);
      JoinFrame("event: metrics", "event: metrics\ndata: ", j, Unlines(rest));
    case Log(j) =>
      UnlinesEvent("event: log", "data: " + j, rest);
      JoinFrame("event: log", "event: log\ndata: ", j, Unlines(rest));
    case KeepAlive =>
      UnlinesTwo(": keep-alive", rest);
      assert Bytes(m) == ": keep-alive" + "\n\n";
  }

  lemma JoinFrame(head: string, both: string, j: string, rest: string)
    requires both == head + "\ndata: "
    ensures both + j + "\n\n" + rest == head + [LF] + (("data: " + j) + "\n\n" + rest)
  {
  }

  lemma {:induction false} AllBytesAreLines(ms: seq<Msg>)
    ensures AllBytes(ms) == Unlines(AllLines(ms))
  {
    if ms != [] {
      AllBytesAreLines(ms[1..]);
      BytesAreLines(ms[0], AllLines(ms[1..]));
    }
  }

  lemma {:induction false} ColonAfter(name: string, v: string)
    requires forall i :: 0 <= i < |name| ==> name[i] != ':'
    ensures IndexOfColon(name + ":" + v) == |name|
  {
    var line := name + ":" + v;
    if name != "" {
      assert line[1..] == name[1..] + ":" + v;
      ColonAfter(name[1..], v);
    }
  }

  lemma FieldLine(b: Buffers, name: string, v: string)
    requires name != "" && forall i :: 0 <= i < |name| ==> name[i] != ':'
    ensures Line(b, name + ": " + v) == Field(b, name, v)
  {
    var line := name + ": " + v;
    assert line == name + ":" + (" " + v);
    ColonAfter(name, " " + v);
    assert line[..|name|] == name && line[|name| + 1..] == " " + v && (" " + v)[1..] == v;
  }

  lemma EventInterpreted(head: string, kind: string, j: string, rest: seq<string>)
    requires head == "event: " + kind && kind != ""
    ensures Interpret([head, "data: " + j, ""] + rest, EMPTY) == [Event(kind, j)] + Interpret(rest, EMPTY)
  {
    var data := "data: " + j;
    var ls := [head, data, ""] + rest;
    assert ls[1..] == [data, ""] + rest && ls[1..][1..] == [""] + rest && ls[1..][1..][1..] == rest;
    FieldLine(EMPTY, "event", kind);
    assert "event" + ": " + kind == head;
    var b1 := Buffers("", kind);
    FieldLine(b1, "data", j);
    assert "data" + ": " + j == data;
    var b2 := Buffers(j + [LF], kind);
    assert "" + j + [LF] == j + [LF];
    assert (j + [LF])[..|j|] == j;
    assert Fire(b2) == [Event(kind, j)];
    calc {
      Interpret(ls, EMPTY);
      Interpret([data, ""] + rest, b1);
      Interpret([""] + rest, b2);
      Fire(b2) + Interpret(rest, EMPTY);
    }
  }

  lemma CommentInterpreted(text: string, rest: seq<string>)
    requires text != "" && text[0] == ':'
    ensures Interpret([text, ""] + rest, EMPTY) == Interpret(rest, EMPTY)
  {
    var ls := [text, ""] + rest;
    assert ls[1..] == [""] + rest && ls[1..][1..] == rest;
    assert Line(EMPTY, text) == EMPTY;
    assert Fire(EMPTY) + Interpret(rest, EMPTY) == Interpret(rest, EMPTY);
  }

  lemma MsgInterpreted(m: Msg, rest: seq<string>)
    ensures Interpret(MsgLines(m) + rest, EMPTY) == EventOf(m) + Interpret(rest, EMPTY)
  {
    match m
    case Metrics(j) => EventInterpreted("event: metrics", "metrics", j, rest);
    case Log(j) => EventInterpreted("event: log", "log", j, rest);
    case KeepAlive =>
      CommentInterpreted(": keep-alive", rest);
      assert [] + Interpret(rest, EMPTY) == Interpret(rest, EMPTY);
  }

  lemma {:induction false} AllInterpreted(ms: seq<Msg>)
    ensures Interpret(AllLines(ms), EMPTY) == Events(ms)
  {
    if ms != [] {
      AllInterpreted(ms[1..]);
      MsgInterpreted(ms[0], AllLines(ms[1..]));
    }
  }

  lemma MsgLinesClean(m: Msg)
    requires Printable(m)
    ensures forall i :: 0 <= i < |MsgLines(m)| ==> OneLine(MsgLines(m)[i])
  {
    assert m.Log? ==> OneLine("event: log") && OneLine("data: " + m.json);
    assert m.Metrics? ==> OneLine("event: metrics") && OneLine("data: " + m.json);
    assert m.KeepAlive? ==> OneLine(": keep-alive");
  }

  lemma {:induction false} AllLinesClean(ms: seq<Msg>)
    requires forall i :: 0 <= i < |ms| ==> Printable(ms[i])
    ensures forall i :: 0 <= i < |AllLines(ms)| ==> OneLine(AllLines(ms)[i])
  {
    if ms != [] {
      MsgLinesClean(ms[0]);
      AllLinesClean(ms[1..]);
    }
  }

  function Sent(latest: Option<string>): seq<Msg> { if latest.Some? then [Metrics(latest.value)] else [] }

  const HELLO := ": connected to sugi sse"

  lemma GreetingIsHello()
    ensures GREETING == HELLO + "\n\n"
  {
  }

  lemma AllBytesCons(m: Msg, rest: seq<Msg>)
    ensures AllBytes([m] + rest) == Bytes(m) + AllBytes(rest)
  {
    assert ([m] + rest)[1..] == rest;
  }

  lemma FirstBytes(latest: Option<string>, taken: seq<Msg>)
    ensures Response(latest, taken) == GREETING + AllBytes(Sent(latest) + taken)
  {
    if latest.Some? {
      AllBytesCons(Metrics(latest.value), taken);
      Associate(GREETING, Bytes(Metrics(latest.value)), AllBytes(taken));
    } else {
      assert Sent(latest) + taken == taken;
      assert GREETING + "" == GREETING;
    }
  }

  lemma ResponseLines(latest: Option<string>, taken: seq<Msg>)
    ensures Response(latest, taken) == Unlines([HELLO, ""] + AllLines(Sent(latest) + taken))
  {
    AllBytesAreLines(Sent(latest) + taken);
    UnlinesTwo(HELLO, AllLines(Sent(latest) + taken));
    FirstBytes(latest, taken);
    GreetingIsHello();
  }

  lemma ResponseLinesClean(ms: seq<Msg>)
    requires forall i :: 0 <= i < |ms| ==> Printable(ms[i])
    ensures forall i :: 0 <= i < |AllLines(ms)| + 2 ==> OneLine(([HELLO, ""] + AllLines(ms))[i])
  {
    AllLinesClean(ms);
    assert OneLine(HELLO) && OneLine("");
  }

  /** A reader of the response gets the snapshot at connection time, if any, and then exactly the frames taken, in order. */
  lemma ResponseRead(latest: Option<string>, taken: seq<Msg>)
    requires latest.Some? ==> OneLine(latest.value)
    requires forall i :: 0 <= i < |taken| ==> Printable(taken[i])
    ensures Parse(Response(latest, taken), EMPTY) == Events(Sent(latest) + taken)
  {
    ResponseLines(latest, taken);
    AllPrintable(latest, taken);
    LinesRead(Sent(latest) + taken);
  }

  lemma AllPrintable(latest: Option<string>, taken: seq<Msg>)
    requires latest.Some? ==> OneLine(latest.value)
    requires forall i :: 0 <= i < |taken| ==> Printable(taken[i])
    ensures forall i :: 0 <= i < |Sent(latest) + taken| ==> Printable((Sent(latest) + taken)[i])
  {
  }

  lemma LinesRead(ms: seq<Msg>)
    requires forall i :: 0 <= i < |ms| ==> Printable(ms[i])
    ensures Parse(Unlines([HELLO, ""] + AllLines(ms)), EMPTY) == Events(ms)
  {
    ResponseLinesClean(ms);
    ParseUnlines([HELLO, ""] + AllLines(ms), EMPTY);
    CommentInterpreted(HELLO, AllLines(ms));
    AllInterpreted(ms);
  }

  // ---------------------------------------------------------------- hub and wire together

  lemma {:induction false} HeartbeatsPrintable(d: seq<Msg>)
    requires forall i :: 0 <= i < |WithoutHeartbeats(d)| ==> Printable(WithoutHeartbeats(d)[i])
    ensures forall i :: 0 <= i < |d| ==> Printable(d[i])
  {
    if d != [] {
      var front, last := d[..|d| - 1], d[|d| - 1];
      assert forall i :: 0 <= i < |WithoutHeartbeats(front)| ==> WithoutHeartbeats(d)[i] == WithoutHeartbeats(front)[i];
      HeartbeatsPrintable(front);
      assert Printable(last) by {
        if !last.KeepAlive? {
          assert WithoutHeartbeats(d)[|WithoutHeartbeats(front)|] == last;
        }
      }
      assert forall i :: 0 <= i < |front| ==> d[i] == front[i];
    }
  }

  lemma {:induction false} PickedPrintable(d: seq<Msg>, from: nat, to: nat, missed: set<nat>)
    requires to <= |d| && forall i :: 0 <= i < |d| ==> Printable(d[i])
    ensures forall i :: 0 <= i < |Pick(d, from, to, missed)| ==> Printable(Pick(d, from, to, missed)[i])
  {
    if from < to {
      PickedPrintable(d, from, to - 1, missed);
    }
  }

  /**
    End to end: what a browser reads from the response of connection `c` is the snapshot sent on connecting
    and then the events of the first messages dispatched since its registration that found room in its channel.
  */
  lemma BrowserReads(acts: seq<Action>, c: nat, latest: Option<string>)
    requires CanRun(Init, acts)
    requires var s := Run(Init, acts);
      && c in s.conns && s.conns[c].joined.Some?
      && forall i :: 0 <= i < |s.published| ==> Printable(s.published[i])
    requires latest.Some? ==> OneLine(latest.value)
    ensures var s := Run(Init, acts);
      var k := s.conns[c];
      && k.joined.value <= End(s, k) <= |s.dispatched|
      && Parse(Response(latest, k.written), EMPTY) == Events(Sent(latest) + k.written)
      && k.written <= Pick(s.dispatched, k.joined.value, End(s, k), k.missed)
      && (NeverFull(acts, c) ==> k.written <= s.dispatched[k.joined.value..End(s, k)])
  {
    var s := Run(Init, acts);
    DeliveryIsExact(acts, c);
    NoGapIff(acts, c);
    var k := s.conns[c];
    HeartbeatsPrintable(s.dispatched);
    PickedPrintable(s.dispatched, k.joined.value, End(s, k), k.missed);
    assert forall i :: 0 <= i < |k.written| ==> k.written[i] == Flow(k)[i];
    ResponseRead(latest, k.written);
  }
}
