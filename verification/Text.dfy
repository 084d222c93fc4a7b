/** The string operations of the Go library that the program relies on, on sequences of characters. */
module Text {
  import opened Sequences

  const NL := '\n'

  /** Index of the first `c` in `t`, or |t|. */
  function IndexOf(t: string, c: char): (n: nat)
    ensures n <= |t| && (n < |t| ==> t[n] == c)
    ensures forall i :: 0 <= i < n ==> t[i] != c
  {
    if t == "" || t[0] == c then 0 else 1 + IndexOf(t[1..], c)
  }

  lemma {:induction false} IndexOfIs(t: string, c: char, n: nat)
    requires n <= |t| && (n < |t| ==> t[n] == c)
    requires forall i :: 0 <= i < n ==> t[i] != c
    ensures IndexOf(t, c) == n
  {
    if n > 0 {
      IndexOfIs(t[1..], c, n - 1);
    }
  }

  /** `strings.Split(t, "\n")`. */
  function Split(t: string): (ls: seq<string>)
    ensures |ls| >= 1
  {
    var n := IndexOf(t, NL);
    if n == |t| then [t] else [t[..n]] + Split(t[n + 1..])
  }

  /** The pieces put together again with a newline between each two. */
  function JoinLines(ls: seq<string>): string {
    if ls == [] then "" else if |ls| == 1 then ls[0] else ls[0] + ([NL] + JoinLines(ls[1..]))
  }

  lemma JoinLinesCons(l: string, ls: seq<string>)
    requires ls != []
    ensures JoinLines([l] + ls) == l + ([NL] + JoinLines(ls))
  {
    assert ([l] + ls)[1..] == ls;
  }

  /** Splitting is undone by joining. */
  lemma {:induction false} SplitJoins(t: string)
    ensures JoinLines(Split(t)) == t
    decreases |t|
  {
    var n := IndexOf(t, NL);
    if n < |t| {
      SplitJoins(t[n + 1..]);
      JoinLinesCons(t[..n], Split(t[n + 1..]));
      CutAround(t, n);
    }
  }

  lemma CutAround(t: string, n: nat)
    requires n < |t|
    ensures t == t[..n] + ([t[n]] + t[n + 1..])
  {
  }

  /** No piece has a newline in it. */
  lemma {:induction false} PiecesAreLines(t: string)
    ensures forall p :: p in Split(t) ==> NL !in p
    decreases |t|
  {
    var n := IndexOf(t, NL);
    if n < |t| {
      PiecesAreLines(t[n + 1..]);
    }
  }

  /** The white space of `unicode.IsSpace`. */
  predicate IsSpace(c: char) {
    || c == ' ' || '\t' <= c <= '\r' || c == '\U{85}' || c == '\U{A0}' || c == '\U{1680}'
    || '\U{2000}' <= c <= '\U{200A}' || c == '\U{2028}' || c == '\U{2029}' || c == '\U{202F}' || c == '\U{205F}' || c == '\U{3000}'
  }

  predicate NoSpace(t: string) { forall i :: 0 <= i < |t| ==> !IsSpace(t[i]) }

  function TrimLeft(t: string): string {
    if t != "" && IsSpace(t[0]) then TrimLeft(t[1..]) else t
  }

  function TrimRight(t: string): string {
    if t != "" && IsSpace(t[|t| - 1]) then TrimRight(t[..|t| - 1]) else t
  }

  function TrimSpace(t: string): string {
    TrimRight(TrimLeft(t))
  }

  predicate Blank(t: string) { forall i :: 0 <= i < |t| ==> IsSpace(t[i]) }

  lemma {:induction false} TrimLeftIs(t: string)
    ensures var n := |t| - |TrimLeft(t)|;
      && n >= 0 && TrimLeft(t) == t[n..] && Blank(t[..n])
      && (TrimLeft(t) != "" ==> !IsSpace(TrimLeft(t)[0]))
  {
    if t != "" && IsSpace(t[0]) {
      TrimLeftIs(t[1..]);
      var m := |t[1..]| - |TrimLeft(t[1..])|;
      assert t[..m + 1] == [t[0]] + t[1..][..m];
    }
  }

  lemma {:induction false} TrimRightIs(t: string)
    ensures var r := TrimRight(t);
      && r <= t && Blank(t[|r|..])
      && (r != "" ==> !IsSpace(r[|r| - 1]))
  {
    if t != "" && IsSpace(t[|t| - 1]) {
      var front := t[..|t| - 1];
      TrimRightIs(front);
      assert t[|TrimRight(front)|..] == front[|TrimRight(front)|..] + [t[|t| - 1]];
    }
  }

  /** Trimming takes white space off both ends, as much as there is, and nothing else. */
  lemma TrimSpaceIs(t: string) returns (before: string, after: string)
    ensures t == before + TrimSpace(t) + after && Blank(before) && Blank(after)
    ensures var r := TrimSpace(t); r != "" ==> !IsSpace(r[0]) && !IsSpace(r[|r| - 1])
  {
    var left := TrimLeft(t);
    TrimLeftIs(t);
    TrimRightIs(left);
    before, after := t[..|t| - |left|], left[|TrimRight(left)|..];
    assert left == TrimRight(left) + after;
  }

  lemma BlankIff(t: string)
    ensures TrimSpace(t) == "" <==> Blank(t)
  {
    var before, after := TrimSpaceIs(t);
    var r := TrimSpace(t);
    if r != "" {
      assert t[|before|] == r[0];
    } else {
      assert t == before + after;
    }
  }

  /** What is between blank ends and does not begin or end blank is what trimming leaves. */
  lemma TrimmedCore(before: string, core: string, after: string)
    requires Blank(before) && Blank(after) && core != "" && !IsSpace(core[0]) && !IsSpace(core[|core| - 1])
    ensures TrimSpace(before + core + after) == core
  {
    DropLeft(before, core + after);
    Associate(before, core, after);
    DropRight(core, after);
  }

  lemma {:induction false} DropLeft(before: string, t: string)
    requires Blank(before) && t != "" && !IsSpace(t[0])
    ensures TrimLeft(before + t) == t
  {
    if before == "" {
      assert before + t == t;
    } else {
      assert (before + t)[0] == before[0] && (before + t)[1..] == before[1..] + t;
      DropLeft(before[1..], t);
    }
  }

  lemma {:induction false} DropRight(t: string, after: string)
    requires Blank(after) && t != "" && !IsSpace(t[|t| - 1])
    ensures TrimRight(t + after) == t
  {
    if after == "" {
      assert t + after == t;
    } else {
      var n := |after| - 1;
      assert (t + after)[|t| + n] == after[n] && (t + after)[..|t| + n] == t + after[..n];
      DropRight(t, after[..n]);
    }
  }

  predicate Digit(c: char) { '0' <= c <= '9' }

  /** ASCII upper case. */
  function UpperChar(c: char): char {
    if 'a' <= c <= 'z' then c - 'a' + 'A' else c
  }

  function ToUpper(t: string): string {
    if t == "" then "" else [UpperChar(t[0])] + ToUpper(t[1..])
  }

  /** The two letters of one of the pairs a/A to z/Z. */
  predicate CasePair(a: char, b: char) {
    ('a' <= a <= 'z' && b as int == a as int - 32) || ('a' <= b <= 'z' && a as int == b as int - 32)
  }

  /** The same text but for the case of ASCII letters. */
  predicate SameLetters(a: string, b: string) {
    |a| == |b| && forall i :: 0 <= i < |a| ==> a[i] == b[i] || CasePair(a[i], b[i])
  }

  lemma {:induction false} UpperLength(t: string)
    ensures |ToUpper(t)| == |t|
    ensures forall i :: 0 <= i < |t| ==> ToUpper(t)[i] == UpperChar(t[i])
  {
    if t != "" {
      UpperLength(t[1..]);
      assert ToUpper(t) == [UpperChar(t[0])] + ToUpper(t[1..]);
    }
  }

  lemma UpperCharIff(a: char, b: char)
    ensures UpperChar(a) == UpperChar(b) <==> a == b || CasePair(a, b)
  {
  }

  /** Upper case keeps every character but small letters, and identifies exactly texts that differ in case alone. */
  lemma UpperEqualIff(a: string, b: string)
    ensures ToUpper(a) == ToUpper(b) <==> SameLetters(a, b)
    ensures forall i :: 0 <= i < |ToUpper(a)| ==> !('a' <= ToUpper(a)[i] <= 'z')
  {
    UpperLength(a);
    UpperLength(b);
    forall i | 0 <= i < |a| && i < |b| ensures UpperChar(a[i]) == UpperChar(b[i]) <==> a[i] == b[i] || CasePair(a[i], b[i]) {
      UpperCharIff(a[i], b[i]);
    }
    if ToUpper(a) == ToUpper(b) {
      assert forall i :: 0 <= i < |a| ==> ToUpper(a)[i] == ToUpper(b)[i];
    }
  }

  // ---------------------------------------------------------------- splitting at white space

  /** Length of the leading run of characters that are not white space. */
  function WordLength(t: string): (n: nat)
    ensures n <= |t| && NoSpace(t[..n]) && (n < |t| ==> IsSpace(t[n]))
  {
    if t == "" || IsSpace(t[0]) then 0 else
      var n := WordLength(t[1..]);
      assert t[..n + 1] == [t[0]] + t[1..][..n];
      1 + n
  }

  lemma {:induction false} WordLengthIs(t: string, n: nat)
    requires n <= |t| && NoSpace(t[..n]) && (n < |t| ==> IsSpace(t[n]))
    ensures WordLength(t) == n
  {
    if n > 0 {
      assert t[0] == t[..n][0];
      assert t[1..][..n - 1] == t[..n][1..];
      assert n < |t| ==> t[1..][n - 1] == t[n];
      WordLengthIs(t[1..], n - 1);
    }
  }

  /** `strings.Fields`. */
  function Fields(t: string): seq<string>
    decreases |t|
  {
    if t == "" then []
    else if IsSpace(t[0]) then Fields(t[1..])
    else
      var n := WordLength(t);
      [t[..n]] + Fields(t[n..])
  }

  predicate Word(w: string) { w != "" && NoSpace(w) }

  predicate Words(ws: seq<string>) { forall i :: 0 <= i < |ws| ==> Word(ws[i]) }

  /** `strings.Join(ws, " ")`. */
  function Join(ws: seq<string>): string {
    if ws == [] then "" else if |ws| == 1 then ws[0] else ws[0] + " " + Join(ws[1..])
  }

  lemma FieldsOfWord(w: string, rest: string)
    requires Word(w) && (rest != "" ==> IsSpace(rest[0]))
    ensures Fields(w + rest) == [w] + Fields(rest)
  {
    var t := w + rest;
    assert t[..|w|] == w && t[|w|..] == rest;
    assert t[0] == w[0];
    WordLengthIs(t, |w|);
  }

  lemma FieldsOfMore(w: string, joined: string)
    requires Word(w)
    ensures Fields(w + " " + joined) == [w] + Fields(joined)
  {
    FieldsOfWord(w, " " + joined);
    assert w + " " + joined == w + (" " + joined);
    assert (" " + joined)[1..] == joined;
  }

  lemma FieldsOfOne(w: string)
    requires Word(w)
    ensures Fields(w) == [w]
  {
    FieldsOfWord(w, "");
    assert w + "" == w;
  }

  /** Splitting a join of words gives the words back. */
  lemma {:induction false} FieldsOfJoin(ws: seq<string>)
    requires Words(ws)
    ensures Fields(Join(ws)) == ws
  {
    if |ws| == 1 {
      FieldsOfOne(ws[0]);
    } else if |ws| > 1 {
      FieldsOfMore(ws[0], Join(ws[1..]));
      FieldsOfJoin(ws[1..]);
    }
  }

  /** A text without its white space. */
  function Squeezed(t: string): string {
    if t == "" then "" else (if IsSpace(t[0]) then "" else [t[0]]) + Squeezed(t[1..])
  }

  function Concat(ws: seq<string>): string {
    if ws == [] then "" else ws[0] + Concat(ws[1..])
  }

  lemma {:induction false} SqueezeWord(w: string, rest: string)
    requires NoSpace(w)
    ensures Squeezed(w + rest) == w + Squeezed(rest)
  {
    if w == "" {
      assert w + rest == rest;
    } else {
      assert (w + rest)[1..] == w[1..] + rest;
      SqueezeWord(w[1..], rest);
      assert [w[0]] + (w[1..] + Squeezed(rest)) == w + Squeezed(rest);
    }
  }

  /** Splitting at white space loses nothing but the white space, for every text. */
  lemma {:induction false} FieldsKeepText(t: string)
    ensures Concat(Fields(t)) == Squeezed(t)
    decreases |t|
  {
    if t != "" {
      if IsSpace(t[0]) {
        FieldsKeepText(t[1..]);
      } else {
        var n := WordLength(t);
        FieldsKeepText(t[n..]);
        SqueezeWord(t[..n], t[n..]);
        assert t == t[..n] + t[n..];
        assert Fields(t)[1..] == Fields(t[n..]);
      }
    }
  }

  lemma {:induction false} FieldsAreWords(t: string)
    ensures Words(Fields(t))
    decreases |t|
  {
    if t != "" {
      if IsSpace(t[0]) {
        FieldsAreWords(t[1..]);
      } else {
        FieldsAreWords(t[WordLength(t)..]);
      }
    }
  }
}
