/** SQLite's LIKE operator, and when a search for `%text%` is the substring search it is documented to be. */
module LikePattern {

  /** LIKE ignores the case of ASCII letters. */
  function Fold(c: char): char { if 'A' <= c <= 'Z' then c - 'A' + 'a' else c }

  predicate Like(p: string, t: string)
    decreases |p| + |t|
  {
    if p == "" then t == ""
    else if p[0] == '%' then Like(p[1..], t) || (t != "" && Like(p, t[1..]))
    else t != "" && (p[0] == '_' || Fold(p[0]) == Fold(t[0])) && Like(p[1..], t[1..])
  }

  predicate Wild(c: char) { c == '%' || c == '_' }

  predicate Plain(s: string) { forall i :: 0 <= i < |s| ==> !Wild(s[i]) }

  predicate StartsWith(t: string, s: string) {
    |s| <= |t| && forall i :: 0 <= i < |s| ==> Fold(s[i]) == Fold(t[i])
  }

  /** `s` occurs in `t`, ignoring the case of ASCII letters. */
  ghost predicate Occurs(s: string, t: string) {
    exists k :: 0 <= k <= |t| && StartsWith(t[k..], s)
  }

  lemma {:induction false} AnythingMatches(t: string)
    ensures Like("%", t)
  {
    if t != "" {
      AnythingMatches(t[1..]);
    }
  }

  /** A leading % lets the rest match anywhere further on. */
  lemma {:induction false} LeadingPercent(q: string, t: string)
    ensures Like("%" + q, t) <==> exists k :: 0 <= k <= |t| && Like(q, t[k..])
  {
    var p := "%" + q;
    assert p[1..] == q && t[0..] == t;
    if t != "" {
      LeadingPercent(q, t[1..]);
      if k :| 0 <= k <= |t| && Like(q, t[k..]) {
        if k > 0 {
          assert t[1..][k - 1..] == t[k..];
        }
      }
      if Like(p, t[1..]) {
        var k :| 0 <= k <= |t[1..]| && Like(q, t[1..][k..]);
        assert t[k + 1..] == t[1..][k..];
      }
    }
  }

  lemma {:induction false} PlainPrefix(s: string, t: string)
    requires Plain(s)
    ensures Like(s + "%", t) <==> StartsWith(t, s)
    decreases |s|
  {
    if s == "" {
      AnythingMatches(t);
      assert s + "%" == "%";
    } else {
      assert (s + "%")[1..] == s[1..] + "%" && (s + "%")[0] == s[0];
      assert !Wild(s[0]);
      if t != "" {
        PlainPrefix(s[1..], t[1..]);
        StartsCons(t, s);
      }
    }
  }

  lemma StartsCons(t: string, s: string)
    requires s != "" && t != ""
    ensures StartsWith(t, s) <==> Fold(s[0]) == Fold(t[0]) && StartsWith(t[1..], s[1..])
  {
    assert s == [s[0]] + s[1..] && t == [t[0]] + t[1..];
  }

  lemma PlainSearch(s: string, t: string)
    requires Plain(s)
    ensures Like("%" + s + "%", t) <==> Occurs(s, t)
  {
    LeadingPercent(s + "%", t);
    assert "%" + s + "%" == "%" + (s + "%");
    forall k | 0 <= k <= |t| ensures Like(s + "%", t[k..]) <==> StartsWith(t[k..], s) {
      PlainPrefix(s, t[k..]);
    }
  }

  /** A text that each wildcard of `s` accepts but does not contain. */
  function Decoy(s: string): (d: string)
    ensures |d| == |s|
    ensures forall i :: 0 <= i < |s| ==> d[i] == if Wild(s[i]) then 'a' else s[i]
  {
    seq(|s|, i requires 0 <= i < |s| => if Wild(s[i]) then 'a' else s[i])
  }

  lemma {:induction false} DecoyMatches(s: string)
    ensures Like(s + "%", Decoy(s))
  {
    if s == "" {
      AnythingMatches("");
      assert s + "%" == "%" && Decoy(s) == "";
    } else {
      DecoyMatches(s[1..]);
      var p, d := s + "%", Decoy(s);
      assert p[1..] == s[1..] + "%" && d[1..] == Decoy(s[1..]);
      assert Like(p[1..], d[1..]);
      if s[0] == '%' {
        assert Like(p, d[1..]);
      }
    }
  }

  lemma DecoyDoesNotOccur(s: string)
    requires !Plain(s)
    ensures !Occurs(s, Decoy(s))
  {
    var d := Decoy(s);
    var i :| 0 <= i < |s| && Wild(s[i]);
    forall k | 0 <= k <= |d| ensures !StartsWith(d[k..], s) {
      if k == 0 {
        assert d[0..] == d;
        assert Fold(s[i]) != Fold(d[i]);
      }
    }
  }

  /**
    The search is a substring search, up to ASCII case, for every message if and only if the searched
    text has no % and no _.
  */
  lemma SearchIsSubstringIff(s: string)
    ensures (forall t :: Like("%" + s + "%", t) <==> Occurs(s, t)) <==> Plain(s)
  {
    if Plain(s) {
      forall t ensures Like("%" + s + "%", t) <==> Occurs(s, t) {
        PlainSearch(s, t);
      }
    } else {
      var d := Decoy(s);
      DecoyMatches(s);
      DecoyDoesNotOccur(s);
      LeadingPercent(s + "%", d);
      assert "%" + s + "%" == "%" + (s + "%");
      assert d[0..] == d;
      assert Like("%" + s + "%", d) && !Occurs(s, d);
    }
  }
}
