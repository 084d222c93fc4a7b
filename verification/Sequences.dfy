/** Small facts about sequences that several modules need. */
module Sequences {

  function Min(a: int, b: int): int { if a < b then a else b }

  /** The last n elements, or all of them. */
  function Last<T>(s: seq<T>, n: nat): (r: seq<T>)
    ensures |r| == Min(n, |s|)
  {
    if n >= |s| then s else s[|s| - n..]
  }

  lemma Associate<T>(a: seq<T>, b: seq<T>, c: seq<T>)
    ensures (a + b) + c == a + (b + c)
  {
  }
}
