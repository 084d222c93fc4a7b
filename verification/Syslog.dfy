/** The syslog line parser, and the lines it reads back (section 4.1 of RFC 3164, section 6.2.3 of RFC 5424). */
module Syslog {
  import opened LogEntries
  import opened Text
  import opened LikePattern

  /** `time.Parse` as far as it is used: ISO 8601 stamps, and BSD stamps with the year supplied. Times are milliseconds. */
  datatype Clock = Clock(now: int, iso: string -> Option<int>, bsd: string -> Option<int>)

  function TrimSuffix(t: string, c: char): string {
    if t != "" && t[|t| - 1] == c then t[..|t| - 1] else t
  }

  /** Where the header ends and with which time; index 0 when no time was recognised. */
  function Stamp(clock: Clock, parts: seq<string>): (int, nat)
    requires |parts| >= 3
  {
    if clock.iso(parts[0]).Some? then (clock.iso(parts[0]).value, 1)
    else
      var bsd := clock.bsd(parts[0] + " " + parts[1] + " " + parts[2]);
      if bsd.Some? then (bsd.value, 3) else (clock.now, 0)
  }

  /** The service and, when there is one, the process id of a tag such as `sshd[123]:`. */
  function Tag(token: string): (string, Option<string>) {
    var t := TrimSuffix(token, ':');
    var open := IndexOf(t, '[');
    if open == |t| then (t, None)
    else
      var close := IndexOf(t, ']');
      (t[..open], if open < close < |t| then Some(t[open + 1..close]) else None)
  }

  /** What a line means. */
  function Meaning(clock: Clock, raw: string, source: string): LogEntry {
    var text := TrimSpace(raw);
    var parts := Fields(text);
    var plain := LogEntry(clock.now, "INFO", "syslog", text, map["source" := source]);
    if |parts| < 3 then plain
    else
      var (time, i) := Stamp(clock, parts);
      var e := if i == 0 || |parts| <= i then plain.(timestamp := time) else WithHeader(plain.(timestamp := time), parts[i..]);
      e.(level := LevelOf(e.message))
  }

  /** Host, tag and message from the tokens after the time. */
  function WithHeader(e: LogEntry, tokens: seq<string>): LogEntry
    requires tokens != []
  {
    var e1 := e.(attributes := e.attributes["hostname" := tokens[0]], message := Join(tokens[1..]));
    if |tokens| == 1 then e1
    else
      var (service, pid) := Tag(tokens[1]);
      e1.(service := service, message := Join(tokens[2..]),
          attributes := if pid.Some? then e1.attributes["pid" := pid.value] else e1.attributes)
  }

  /** The parser as written: `entry` and `msgIndex` are filled in step by step. */
  method ParseSyslogLine(clock: Clock, raw: string, source: string) returns (entry: LogEntry)
    ensures entry == Meaning(clock, raw, source)
  {
    var text := TrimSpace(raw);
    entry := LogEntry(clock.now, "INFO", "syslog", text, map["source" := source]);
    if text == "" {
      return;
    }
    var parts := Fields(text);
    if |parts| < 3 {
      return;
    }
    var msgIndex := 0;
    var iso := clock.iso(parts[0]);
    if iso.Some? {
      entry := entry.(timestamp := iso.value);
      msgIndex := 1;
    } else {
      var bsd := clock.bsd(parts[0] + " " + parts[1] + " " + parts[2]);
      if bsd.Some? {
        entry := entry.(timestamp := bsd.value);
        msgIndex := 3;
      }
    }
    if msgIndex > 0 && |parts| > msgIndex {
      entry := ExtractHeader(entry, parts, msgIndex);
    }
    entry := entry.(level := LevelOf(entry.message));
  }

  method ExtractHeader(e: LogEntry, parts: seq<string>, start: nat) returns (entry: LogEntry)
    requires start < |parts|
    ensures entry == WithHeader(e, parts[start..])
  {
    var msgIndex := start;
    entry := e.(attributes := e.attributes["hostname" := parts[msgIndex]]);
    msgIndex := msgIndex + 1;
    if |parts| > msgIndex {
      var token := TrimSuffix(parts[msgIndex], ':');
      var idx := IndexOf(token, '[');
      if idx < |token| {
        entry := entry.(service := token[..idx]);
        var endIdx := IndexOf(token, ']');
        if idx < endIdx < |token| {
          entry := entry.(attributes := entry.attributes["pid" := token[idx + 1..endIdx]]);
        }
      } else {
        entry := entry.(service := token);
      }
      msgIndex := msgIndex + 1;
      assert parts[start..][2..] == parts[msgIndex..];
    } else {
      assert parts[start..][1..] == parts[msgIndex..];
    }
    entry := entry.(message := Join(parts[msgIndex..]));
  }

  // ---------------------------------------------------------------- the level

  const ERROR_WORDS := ["fail", "fatal", "error", "panic", "segfault", "critical", "alert", "emerg"]
  const WARN_WORDS := ["warn", "warning", "denied", "reject", "timeout", "retry"]
  const DEBUG_WORDS := ["debug", "trace"]

  /** ASCII lower case. */
  function ToLower(t: string): (r: string)
    ensures |r| == |t| && forall i :: 0 <= i < |t| ==> r[i] == Fold(t[i])
  {
    seq(|t|, i requires 0 <= i < |t| => Fold(t[i]))
  }

  /** `strings.Contains`. */
  predicate Includes(t: string, w: string) {
    w <= t || (t != "" && Includes(t[1..], w))
  }

  /** One of the words is contained in the text. */
  predicate Mentions(t: string, words: seq<string>) {
    words != [] && (Includes(t, words[0]) || Mentions(t, words[1..]))
  }

  /** The level inferred from a message; the first list with a hit decides. */
  function LevelOf(message: string): string {
    var lower := ToLower(message);
    if Mentions(lower, ERROR_WORDS) then "ERROR"
    else if Mentions(lower, WARN_WORDS) then "WARN"
    else if Mentions(lower, DEBUG_WORDS) then "DEBUG"
    else "INFO"
  }

  lemma LowerTail(t: string)
    requires t != ""
    ensures ToLower(t)[1..] == ToLower(t[1..])
  {
  }

  lemma {:induction false} IncludesIsOccurs(t: string, w: string)
    requires ToLower(w) == w
    ensures Includes(ToLower(t), w) <==> Occurs(w, t)
  {
    PrefixIsStart(t, w);
    assert t[0..] == t;
    if t != "" {
      LowerTail(t);
      IncludesIsOccurs(t[1..], w);
      if Occurs(w, t[1..]) {
        var k :| 0 <= k <= |t[1..]| && StartsWith(t[1..][k..], w);
        assert t[k + 1..] == t[1..][k..];
      }
      if k :| 0 < k <= |t| && StartsWith(t[k..], w) {
        assert t[1..][k - 1..] == t[k..];
      }
    }
  }

  lemma PrefixIsStart(t: string, w: string)
    requires ToLower(w) == w
    ensures w <= ToLower(t) <==> StartsWith(t, w)
  {
    assert forall i :: 0 <= i < |w| ==> w[i] == Fold(w[i]);
  }

  ghost predicate OneOccurs(words: seq<string>, t: string) { exists i :: 0 <= i < |words| && Occurs(words[i], t) }

  lemma {:induction false} MentionsIff(t: string, words: seq<string>)
    requires forall i :: 0 <= i < |words| ==> ToLower(words[i]) == words[i]
    ensures Mentions(ToLower(t), words) <==> OneOccurs(words, t)
  {
    if words != [] {
      IncludesIsOccurs(t, words[0]);
      MentionsIff(t, words[1..]);
      if i :| 0 <= i < |words| && Occurs(words[i], t) {
        assert i > 0 ==> words[1..][i - 1] == words[i];
      }
      if i :| 0 <= i < |words[1..]| && Occurs(words[1..][i], t) {
        assert words[i + 1] == words[1..][i];
      }
    }
  }

  lemma WordsAreLower()
    ensures forall i :: 0 <= i < |ERROR_WORDS| ==> ToLower(ERROR_WORDS[i]) == ERROR_WORDS[i]
    ensures forall i :: 0 <= i < |WARN_WORDS| ==> ToLower(WARN_WORDS[i]) == WARN_WORDS[i]
    ensures forall i :: 0 <= i < |DEBUG_WORDS| ==> ToLower(DEBUG_WORDS[i]) == DEBUG_WORDS[i]
  {
  }

  /**
    A message is an error exactly when one of the words for it occurs in it, in any case; a warning when
    one of its words does and none for an error; and so on.
  */
  lemma LevelIff(message: string)
    ensures var level, error, warn := LevelOf(message), OneOccurs(ERROR_WORDS, message), OneOccurs(WARN_WORDS, message);
      && (level == "ERROR" <==> error)
      && (level == "WARN" <==> !error && warn)
      && (level == "DEBUG" <==> !error && !warn && OneOccurs(DEBUG_WORDS, message))
      && level in {"ERROR", "WARN", "DEBUG", "INFO"}
  {
    WordsAreLower();
    MentionsIff(message, ERROR_WORDS);
    MentionsIff(message, WARN_WORDS);
    MentionsIff(message, DEBUG_WORDS);
    assert "ERROR" != "WARN" && "ERROR" != "DEBUG" && "ERROR" != "INFO" && "WARN" != "DEBUG" && "WARN" != "INFO" && "DEBUG" != "INFO";
  }

  // ---------------------------------------------------------------- printing

  function TagText(service: string, pid: Option<string>): string {
    service + (if pid.Some? then "[" + pid.value + "]" else "") + ":"
  }

  function Print(stamp: seq<string>, host: string, service: string, pid: Option<string>, message: seq<string>): string {
    Join(stamp + [host, TagText(service, pid)] + message)
  }

  /** `stamp` is a time the parser recognises: one ISO token, or three BSD tokens of which the first is no ISO time. */
  predicate Recognised(clock: Clock, stamp: seq<string>) {
    || (|stamp| == 1 && clock.iso(stamp[0]).Some?)
    || (|stamp| == 3 && clock.iso(stamp[0]).None? && clock.bsd(stamp[0] + " " + stamp[1] + " " + stamp[2]).Some?)
  }

  function TimeOf(clock: Clock, stamp: seq<string>): int
    requires Recognised(clock, stamp)
  {
    if |stamp| == 1 then clock.iso(stamp[0]).value else clock.bsd(stamp[0] + " " + stamp[1] + " " + stamp[2]).value
  }

  predicate Contains(t: string, c: char) { exists i :: 0 <= i < |t| && t[i] == c }

  /** The tag is read back exactly when the brackets in it can be told from the ones around the process id. */
  predicate Unambiguous(service: string, pid: Option<string>) {
    && !Contains(service, '[')
    && (pid.Some? ==> !Contains(service, ']') && !Contains(pid.value, ']'))
  }

  lemma TagReadBack(service: string, pid: Option<string>)
    ensures Tag(TagText(service, pid)) == (service, pid) <==> Unambiguous(service, pid)
  {
    var token := TagText(service, pid);
    var t := service + (if pid.Some? then "[" + pid.value + "]" else "");
    assert token == t + ":" && token[..|t|] == t;
    assert TrimSuffix(token, ':') == t;
    var open, close := IndexOf(t, '['), IndexOf(t, ']');
    if Contains(service, '[') {
      var i :| 0 <= i < |service| && service[i] == '[';
      assert t[i] == '[' && open <= i;
      assert Tag(token).0 == t[..open];
      assert |t[..open]| < |service|;
    } else if pid.None? {
      assert t == service;
      IndexOfIs(t, '[', |t|);
    } else {
      assert forall i :: 0 <= i < |service| ==> t[i] == service[i];
      IndexOfIs(t, '[', |service|);
      assert t[..open] == service;
      PidReadBack(service, pid.value, t);
    }
  }

  lemma PidReadBack(service: string, pid: string, t: string)
    requires t == service + "[" + pid + "]" && !Contains(service, '[')
    ensures var close := IndexOf(t, ']');
      (|service| < close < |t| && t[|service| + 1..close] == pid) <==> !Contains(service, ']') && !Contains(pid, ']')
  {
    var close := IndexOf(t, ']');
    var s := |service|;
    assert t[|t| - 1] == ']' && forall i :: 0 <= i < |pid| ==> t[s + 1 + i] == pid[i];
    assert forall i :: 0 <= i < s ==> t[i] == service[i];
    if Contains(service, ']') {
      var i :| 0 <= i < s && service[i] == ']';
      assert t[i] == ']' && close <= i;
    } else if Contains(pid, ']') {
      var i :| 0 <= i < |pid| && pid[i] == ']';
      assert t[s + 1 + i] == ']' && close <= s + 1 + i;
      assert |service| < close < |t| ==> |t[s + 1..close]| < |pid|;
    } else {
      IndexOfIs(t, ']', |t| - 1);
      assert t[s + 1..|t| - 1] == pid;
    }
  }

  lemma {:induction false} JoinEnds(ws: seq<string>)
    requires Words(ws) && ws != []
    ensures var j := Join(ws); j != "" && !IsSpace(j[0]) && !IsSpace(j[|j| - 1])
  {
    if |ws| > 1 {
      JoinEnds(ws[1..]);
    }
  }

  lemma TrimmedAlready(t: string)
    requires t != "" ==> !IsSpace(t[0]) && !IsSpace(t[|t| - 1])
    ensures TrimSpace(t) == t
  {
  }

  function Pid(e: LogEntry): Option<string> {
    if "pid" in e.attributes then Some(e.attributes["pid"]) else None
  }

  lemma HeaderReadBack(e: LogEntry, host: string, service: string, pid: Option<string>, message: seq<string>)
    requires "pid" !in e.attributes
    ensures var r := WithHeader(e, [host, TagText(service, pid)] + message);
      && r.timestamp == e.timestamp && r.message == Join(message)
      && "hostname" in r.attributes && r.attributes["hostname"] == host
      && ((r.service == service && Pid(r) == pid) <==> Unambiguous(service, pid))
  {
    var tokens := [host, TagText(service, pid)] + message;
    assert tokens[2..] == message;
    TagReadBack(service, pid);
    assert "pid" != "hostname" by { assert |"pid"| != |"hostname"|; }
  }

  lemma PrintedFields(stamp: seq<string>, host: string, service: string, pid: Option<string>, message: seq<string>)
    requires Words(stamp) && Word(host) && Word(TagText(service, pid)) && Words(message)
    ensures Fields(TrimSpace(Print(stamp, host, service, pid, message))) == stamp + [host, TagText(service, pid)] + message
  {
    var parts := stamp + [host, TagText(service, pid)] + message;
    JoinEnds(parts);
    TrimmedAlready(Join(parts));
    FieldsOfJoin(parts);
  }

  /**
    Printing a header and a message of words and parsing the line gives back time, host and message, and
    gives back service and process id if and only if their brackets are unambiguous.
  */
  lemma PrintParse(clock: Clock, stamp: seq<string>, host: string, service: string, pid: Option<string>, message: seq<string>, source: string)
    requires Recognised(clock, stamp) && Words(stamp) && Word(host) && Word(TagText(service, pid)) && Words(message)
    ensures var e := Meaning(clock, Print(stamp, host, service, pid, message), source);
      && e.timestamp == TimeOf(clock, stamp)
      && e.message == Join(message) && e.level == LevelOf(Join(message))
      && "hostname" in e.attributes && e.attributes["hostname"] == host
      && ((e.service == service && Pid(e) == pid) <==> Unambiguous(service, pid))
  {
    PrintedFields(stamp, host, service, pid, message);
    var text := TrimSpace(Print(stamp, host, service, pid, message));
    var header := [host, TagText(service, pid)] + message;
    RegroupHeader(stamp, host, TagText(service, pid), message);
    StampRecognised(clock, stamp, header);
    var plain := LogEntry(TimeOf(clock, stamp), "INFO", "syslog", text, map["source" := source]);
    assert "pid" !in plain.attributes by { assert |"pid"| != |"source"|; }
    HeaderReadBack(plain, host, service, pid, message);
  }

  /** A line of fewer than three words is kept as it is. */
  lemma ShortLine(clock: Clock, raw: string, source: string)
    requires |Fields(TrimSpace(raw))| < 3
    ensures Meaning(clock, raw, source) == LogEntry(clock.now, "INFO", "syslog", TrimSpace(raw), map["source" := source])
  {
  }

  /** A longer line without a recognised time is kept as it is too, and gets the level of its words. */
  lemma TimelessLine(clock: Clock, raw: string, source: string)
    requires var ws := Fields(TrimSpace(raw));
      |ws| >= 3 && clock.iso(ws[0]).None? && clock.bsd(ws[0] + " " + ws[1] + " " + ws[2]).None?
    ensures Meaning(clock, raw, source)
      == LogEntry(clock.now, LevelOf(TrimSpace(raw)), "syslog", TrimSpace(raw), map["source" := source])
  {
  }

  /**
    With a recognised time, an ISO stamp first, the entry has that time; the source is always kept; the
    service is "syslog" unless a tag follows the host.
  */
  lemma StampedLine(clock: Clock, raw: string, source: string)
    requires |Fields(TrimSpace(raw))| >= 3
    ensures var ws, e := Fields(TrimSpace(raw)), Meaning(clock, raw, source);
      var bsd := clock.bsd(ws[0] + " " + ws[1] + " " + ws[2]);
      && (clock.iso(ws[0]).Some? ==> e.timestamp == clock.iso(ws[0]).value)
      && (clock.iso(ws[0]).None? && bsd.Some? ==> e.timestamp == bsd.value)
      && (clock.iso(ws[0]).None? && |ws| <= 4 ==> e.service == "syslog")
      && "source" in e.attributes && e.attributes["source"] == source
      && e.level == LevelOf(e.message)
  {
    assert "source" != "hostname" && "source" != "pid" by { assert |"source"| != |"hostname"| && |"source"| != |"pid"|; }
  }

  /**
    No word of the message is lost, changed or moved, whatever the line: its words are those of the line
    from some point on, which is the beginning when no time was recognised, and otherwise follows the
    time, the host and the tag.
  */
  lemma MessageIsSuffix(clock: Clock, raw: string, source: string)
    ensures var words, e := Fields(TrimSpace(raw)), Meaning(clock, raw, source);
      var i := if |words| < 3 then 0 else Stamp(clock, words).1;
      Fields(e.message) == if i == 0 || |words| <= i then words else words[(if |words| == i + 1 then i + 1 else i + 2)..]
  {
    var words := Fields(TrimSpace(raw));
    FieldsAreWords(TrimSpace(raw));
    if |words| >= 3 {
      var i := Stamp(clock, words).1;
      if i != 0 && |words| > i {
        var rest := words[i..];
        if |rest| == 1 {
          FieldsOfJoin(rest[1..]);
          assert rest[1..] == words[i + 1..];
        } else {
          FieldsOfJoin(rest[2..]);
          assert rest[2..] == words[i + 2..];
        }
      }
    }
  }

  lemma RegroupHeader(stamp: seq<string>, host: string, tag: string, message: seq<string>)
    ensures stamp + [host, tag] + message == stamp + ([host, tag] + message)
  {
  }

  lemma StampRecognised(clock: Clock, stamp: seq<string>, header: seq<string>)
    requires Recognised(clock, stamp) && |header| >= 2
    ensures Stamp(clock, stamp + header) == (TimeOf(clock, stamp), |stamp|) && (stamp + header)[|stamp|..] == header
  {
    var parts := stamp + header;
    assert parts[0] == stamp[0] && (|stamp| == 3 ==> parts[1] == stamp[1] && parts[2] == stamp[2]);
  }
}
