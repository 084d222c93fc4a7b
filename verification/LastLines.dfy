/** The backwards window read with which a tailer starts. Characters stand for bytes. */
module LastLines {
  import opened Sequences
  import opened Text

  const WINDOW := 65536

  /** The lines of a text: a final newline ends the last line, it does not begin another. */
  function Lines(t: string): seq<string> {
    WithoutEmptyLast(Split(t))
  }

  function WithoutEmptyLast(ls: seq<string>): seq<string>
    requires ls != []
  {
    if ls[|ls| - 1] == "" then ls[..|ls| - 1] else ls
  }

  function Window(file: string): string { if |file| > WINDOW then file[|file| - WINDOW..] else file }

  /** What precedes the window. */
  function Before(file: string): string { if |file| > WINDOW then file[..|file| - WINDOW] else "" }

  /** The last n lines that the window shows. */
  function Shown(file: string, n: nat): seq<string> { Last(Lines(Window(file)), n) }

  lemma EmptyFileHasNoLines(n: nat)
    ensures Shown("", n) == []
  {
    assert Split("") == [""];
  }

  lemma WindowIsTail(file: string, readBytes: nat)
    requires readBytes == if WINDOW > |file| then |file| else WINDOW
    ensures file[|file| - readBytes..] == Window(file)
  {
  }

  method ReadLastLines(file: string, n: int) returns (lines: seq<string>)
    ensures lines == if n <= 0 then [] else Shown(file, n)
  {
    if n <= 0 {
      return [];
    }
    if file == "" {
      EmptyFileHasNoLines(n);
      return [];
    }
    var readBytes := WINDOW;
    if readBytes > |file| {
      readBytes := |file|;
    }
    WindowIsTail(file, readBytes);
    lines := SplitWindow(file[|file| - readBytes..]);
    if |lines| > n {
      lines := lines[|lines| - n..];
    }
  }

  method SplitWindow(buf: string) returns (lines: seq<string>)
    ensures lines == Lines(buf)
  {
    lines := Split(buf);
    if |lines| > 0 && lines[|lines| - 1] == "" {
      lines := lines[..|lines| - 1];
    }
  }

  /** Two split texts put together: the piece at the seam is glued, the others are kept. */
  function Glue(sa: seq<string>, sb: seq<string>): (g: seq<string>)
    requires sa != [] && sb != []
    ensures |g| == |sa| + |sb| - 1
    ensures g[|sa| - 1] == sa[|sa| - 1] + sb[0] && g[|sa|..] == sb[1..]
  {
    sa[..|sa| - 1] + [sa[|sa| - 1] + sb[0]] + sb[1..]
  }

  lemma GlueCons(h: string, sa: seq<string>, sb: seq<string>)
    requires sa != [] && sb != []
    ensures Glue([h] + sa, sb) == [h] + Glue(sa, sb)
  {
    assert ([h] + sa)[..|sa|] == [h] + sa[..|sa| - 1];
  }

  lemma GlueOne(a: string, b: string, rest: seq<string>)
    ensures Glue([a], [b] + rest) == [a + b] + rest
  {
    assert ([b] + rest)[1..] == rest;
  }

  lemma SplitAt(head: string, rest: string)
    requires IndexOf(head, NL) == |head|
    ensures Split(head + [NL] + rest) == [head] + Split(rest)
  {
    var t := head + [NL] + rest;
    IndexOfIs(t, NL, |head|);
    assert t[..|head|] == head && t[|head| + 1..] == rest;
  }

  lemma SplitNone(t: string)
    requires IndexOf(t, NL) == |t|
    ensures Split(t) == [t]
  {
  }

  lemma SplitSeam(a: string, b: string)
    requires IndexOf(a, NL) == |a|
    ensures Split(a + b) == Glue([a], Split(b))
  {
    var m := IndexOf(b, NL);
    if m < |b| {
      var head, rest := b[..m], b[m + 1..];
      IndexOfIs(head, NL, m);
      assert b == head + [NL] + rest;
      SeamBreaks(a, head, rest);
    } else {
      SeamPlain(a, b);
    }
  }

  lemma SeamPlain(a: string, b: string)
    requires IndexOf(a, NL) == |a| && IndexOf(b, NL) == |b|
    ensures Split(a + b) == Glue([a], Split(b))
  {
    IndexOfIs(a + b, NL, |a + b|);
    SplitNone(b);
    SplitNone(a + b);
    assert Glue([a], [b]) == [a + b];
  }

  lemma SeamBreaks(a: string, head: string, rest: string)
    requires IndexOf(a, NL) == |a| && IndexOf(head, NL) == |head|
    ensures Split(a + (head + [NL] + rest)) == Glue([a], Split(head + [NL] + rest))
  {
    IndexOfIs(a + head, NL, |a + head|);
    Associate(a, head + [NL], rest);
    Associate(a, head, [NL]);
    SplitAt(head, rest);
    SplitAt(a + head, rest);
    GlueOne(a, head, Split(rest));
  }

  lemma {:induction false} SplitConcat(a: string, b: string)
    ensures Split(a + b) == Glue(Split(a), Split(b))
    decreases |a|
  {
    var n := IndexOf(a, NL);
    if n == |a| {
      SplitSeam(a, b);
    } else {
      IndexOfIs(a + b, NL, n);
      var h, rest := a[..n], a[n + 1..];
      assert (a + b)[..n] == h && (a + b)[n + 1..] == rest + b;
      SplitConcat(rest, b);
      GlueCons(h, Split(rest), Split(b));
    }
  }

  lemma SplitNonEmptyText(t: string)
    requires t != ""
    ensures Split(t) != [""]
  {
    var n := IndexOf(t, NL);
    if n == |t| {
      assert Split(t) == [t];
    }
  }

  lemma GluedLines(sa: seq<string>, sb: seq<string>)
    requires sa != [] && sb != [] && sb != [""]
    ensures var whole, part := WithoutEmptyLast(Glue(sa, sb)), WithoutEmptyLast(sb);
      && |whole| == |sa| - 1 + |part| && part != []
      && whole[|sa| - 1] == sa[|sa| - 1] + part[0]
      && whole[|sa|..] == part[1..]
  {
    var g := Glue(sa, sb);
    if |sb| == 1 {
      assert sb == [sb[0]];
      assert |g[|g| - 1]| >= |sb[0]| > 0;
    } else {
      assert g[|g| - 1] == g[|sa|..][|sb| - 2] == sb[|sb| - 1];
      assert sb[..|sb| - 1][1..] == sb[1..][..|sb| - 2];
      assert g[..|g| - 1][|sa|..] == g[|sa|..][..|sb| - 2];
    }
  }

  /** The window's lines against the file's: all but the first are the file's last ones, the first is the end of the line before. */
  lemma WindowLines(a: string, b: string)
    requires b != ""
    ensures var whole, part := Lines(a + b), Lines(b);
      && part != [] && |whole| - |part| == |Split(a)| - 1
      && whole[|whole| - |part| + 1..] == part[1..]
      && whole[|whole| - |part|] == Split(a)[|Split(a)| - 1] + part[0]
  {
    SplitConcat(a, b);
    SplitNonEmptyText(b);
    GluedLines(Split(a), Split(b));
  }

  lemma {:induction false} LastPieceEmpty(a: string)
    ensures Split(a)[|Split(a)| - 1] == "" <==> a == "" || a[|a| - 1] == NL
    decreases |a|
  {
    var n := IndexOf(a, NL);
    if n < |a| {
      LastPieceEmpty(a[n + 1..]);
      assert a[n + 1..] != "" ==> a[n + 1..][|a| - n - 2] == a[|a| - 1];
    }
  }

  ghost predicate EndsWith(t: string, suffix: string) {
    |suffix| <= |t| && t[|t| - |suffix|..] == suffix
  }

  /** A list `lines` of which `w` is the end, except that w[0] may be only the end of the line in its place. */
  ghost predicate Overlaps(lines: seq<string>, w: seq<string>) {
    && w != [] && |w| <= |lines|
    && w[1..] == lines[|lines| - |w| + 1..]
    && EndsWith(lines[|lines| - |w|], w[0])
  }

  lemma OverlapTail(lines: seq<string>, w: seq<string>, n: nat)
    requires Overlaps(lines, w) && 0 < n < |w|
    ensures w[|w| - n..] == lines[|lines| - n..]
  {
    assert w[|w| - n..] == w[1..][|w| - n - 1..];
    assert lines[|lines| - n..] == lines[|lines| - |w| + 1..][|w| - n - 1..];
  }

  lemma OverlapWhole(lines: seq<string>, w: seq<string>)
    requires Overlaps(lines, w)
    ensures w == lines[|lines| - |w|..] <==> w[0] == lines[|lines| - |w|]
  {
    var e := lines[|lines| - |w|..];
    assert e[1..] == lines[|lines| - |w| + 1..];
    assert w == [w[0]] + w[1..] && e == [e[0]] + e[1..];
  }

  /** A first line with `piece` cut off: `w` is the last n lines only when nothing is cut and it is long enough. */
  lemma CutFirstLine(lines: seq<string>, w: seq<string>, n: nat, piece: string)
    requires Overlaps(lines, w) && |w| <= n
    requires lines[|lines| - |w|] == piece + w[0]
    requires piece == "" ==> |lines| > |w|
    ensures w == Last(lines, n) <==> |w| == n && piece == ""
  {
    var k := |lines| - |w|;
    OverlapWhole(lines, w);
    if piece != "" {
      assert |lines[k]| > |w[0]|;
      if k == 0 {
        assert Last(lines, n) == lines && lines[0] != w[0];
      } else if |w| == n {
        assert Last(lines, n) == lines[k..];
      } else {
        assert |Last(lines, n)| > |w|;
      }
    } else {
      assert w[0] == lines[k];
      if |w| < n {
        assert |Last(lines, n)| > |w|;
      }
    }
  }

  lemma WindowShort(a: string, b: string, n: nat)
    requires n > 0 && a != "" && b != "" && |Lines(b)| <= n
    ensures Lines(b) == Last(Lines(a + b), n) <==> |Lines(b)| == n && a[|a| - 1] == NL
  {
    WindowLines(a, b);
    LastPieceEmpty(a);
    if a[|a| - 1] == NL {
      PiecesAfterBreak(a);
    }
    CutFirstLine(Lines(a + b), Lines(b), n, Split(a)[|Split(a)| - 1]);
  }

  lemma WindowReadAt(a: string, b: string, n: nat)
    requires n > 0 && b != ""
    ensures var lines, w := Lines(a + b), Lines(b);
      && Overlaps(lines, w)
      && (|w| <= n ==> (w == Last(lines, n) <==> a == "" || (|w| == n && a[|a| - 1] == NL)))
  {
    WindowLines(a, b);
    if a == "" {
      assert a + b == b;
    } else if |Lines(b)| <= n {
      WindowShort(a, b, n);
    }
  }

  lemma PiecesAfterBreak(a: string)
    requires a != "" && a[|a| - 1] == NL
    ensures |Split(a)| >= 2
  {
    assert IndexOf(a, NL) < |a|;
  }

  lemma LastOverlaps(lines: seq<string>, w: seq<string>, n: nat)
    requires Overlaps(lines, w) && 0 < n < |w|
    ensures w[|w| - n..] == Last(lines, n) && Overlaps(lines, Last(lines, n))
  {
    OverlapTail(lines, w, n);
    var r := lines[|lines| - n..];
    assert r[1..] == lines[|lines| - n + 1..];
  }

  /**
    For every file that is not empty and every n > 0: the window read returns the file's last min(n, lines) lines exactly
    when the file fits the window, or the window holds more than n lines, or it holds n and begins at the
    start of a line. In every case all but the first returned line are the file's last ones, and the first
    is the end of the one before them.
  */
  lemma WindowRead(file: string, n: nat)
    requires n > 0 && file != ""
    ensures var lines, r, w := Lines(file), Shown(file, n), |Lines(Window(file))|;
      && (r == Last(lines, n) <==> |file| <= WINDOW || w > n || (w == n && file[|file| - WINDOW - 1] == NL))
      && |r| <= n && |r| <= |lines| && Overlaps(lines, r)
  {
    Seam(file);
    WindowReadFrom(file, Before(file), Window(file), n);
  }

  lemma WindowReadFrom(file: string, a: string, b: string, n: nat)
    requires n > 0 && b != "" && file == a + b
    ensures var lines, w := Lines(file), Lines(b);
      && (Last(w, n) == Last(lines, n) <==> a == "" || |w| > n || (|w| == n && a[|a| - 1] == NL))
      && |Last(w, n)| <= n && |Last(w, n)| <= |lines| && Overlaps(lines, Last(w, n))
  {
    WindowReadAt(a, b, n);
    if |Lines(b)| > n {
      LastOverlaps(Lines(file), Lines(b), n);
    }
  }

  lemma Seam(file: string)
    ensures Before(file) + Window(file) == file
    ensures Before(file) == "" <==> |file| <= WINDOW
    ensures |file| > WINDOW ==> Before(file)[|Before(file)| - 1] == file[|file| - WINDOW - 1]
    ensures Window(file) == "" <==> file == ""
  {
  }
}
