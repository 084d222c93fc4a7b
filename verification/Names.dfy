/** Sorting the keys of a map: a map yields its keys in any order, the sorted list is always the same. */
module Names {

  /** The order of `sort.Strings`. */
  predicate Less(a: string, b: string) {
    b != "" && (a == "" || a[0] < b[0] || (a[0] == b[0] && Less(a[1..], b[1..])))
  }

  lemma {:induction false} LessTotal(a: string, b: string)
    ensures Less(a, b) || a == b || Less(b, a)
    ensures !(Less(a, b) && Less(b, a))
    ensures !Less(a, a)
  {
    if a != "" {
      LessTotal(a[1..], if b != "" then b[1..] else b);
      LessTotal(a[1..], a[1..]);
    }
    if a != "" && b != "" {
      assert a == [a[0]] + a[1..] && b == [b[0]] + b[1..];
    }
  }

  lemma {:induction false} LessTransitive(a: string, b: string, c: string)
    requires Less(a, b) && Less(b, c)
    ensures Less(a, c)
  {
    if a != "" && a[0] == b[0] == c[0] {
      LessTransitive(a[1..], b[1..], c[1..]);
    }
  }

  /** The first place where two texts differ, or where one of them ends. */
  ghost predicate DifferAt(a: string, b: string, k: nat) {
    k <= |a| && k <= |b| && a[..k] == b[..k] && (k == |a| || k == |b| || a[k] != b[k])
  }

  /** The order is that of the dictionary: at the first difference the smaller character, or the end, comes first. */
  lemma {:induction false} LessIff(a: string, b: string, k: nat)
    requires DifferAt(a, b, k)
    ensures Less(a, b) <==> k < |b| && (k == |a| || a[k] < b[k])
    decreases k
  {
    if k > 0 {
      assert a[0] == a[..k][0] && b[0] == b[..k][0];
      assert a[1..][..k - 1] == a[..k][1..] && b[1..][..k - 1] == b[..k][1..];
      LessIff(a[1..], b[1..], k - 1);
    }
  }

  predicate Ascending(names: seq<string>) { forall i, j :: 0 <= i < j < |names| ==> Less(names[i], names[j]) }

  /** `names` lists the set in ascending order. */
  ghost predicate Lists(names: seq<string>, keys: set<string>) {
    Ascending(names) && forall n :: n in names <==> n in keys
  }

  lemma FirstIsLeast(names: seq<string>, n: string)
    requires Ascending(names) && n in names && n != names[0]
    ensures Less(names[0], n)
  {
  }

  lemma NotEmpty(names: seq<string>, keys: set<string>)
    requires Lists(names, keys) && names != []
    ensures keys != {}
  {
    assert names[0] in names;
  }

  lemma {:induction false} ListsUnique(a: seq<string>, b: seq<string>, keys: set<string>)
    requires Lists(a, keys) && Lists(b, keys)
    ensures a == b
    decreases |a|
  {
    if a == [] {
      if b != [] {
        NotEmpty(b, keys);
      }
    } else {
      assert a[0] in keys && b != [] by { assert a[0] in b; }
      SameFirst(a, b, keys);
      DropFirst(a, keys);
      DropFirst(b, keys);
      ListsUnique(a[1..], b[1..], keys - {a[0]});
      assert a == [a[0]] + a[1..] && b == [b[0]] + b[1..];
    }
  }

  lemma SameFirst(a: seq<string>, b: seq<string>, keys: set<string>)
    requires Lists(a, keys) && Lists(b, keys) && a != [] && b != []
    ensures a[0] == b[0]
  {
    assert a[0] in b && b[0] in a;
    if a[0] != b[0] {
      FirstIsLeast(a, b[0]);
      FirstIsLeast(b, a[0]);
      LessTotal(a[0], b[0]);
      assert false;
    }
  }

  lemma DropFirst(a: seq<string>, keys: set<string>)
    requires Lists(a, keys) && a != []
    ensures Lists(a[1..], keys - {a[0]})
  {
    assert a == [a[0]] + a[1..];
    forall n | n in a[1..] ensures n != a[0] {
      var i :| 0 <= i < |a[1..]| && a[1..][i] == n;
      assert a[i + 1] == n;
      LessTotal(n, n);
    }
  }

  /** One step of the sort: a new name finds its place. */
  method Place(names: seq<string>, name: string) returns (r: seq<string>)
    requires Ascending(names) && name !in names
    ensures Ascending(r) && forall n :: n in r <==> n in names || n == name
  {
    var i := |names|;
    while i > 0 && Less(name, names[i - 1])
      invariant 0 <= i <= |names|
      invariant forall k :: i <= k < |names| ==> Less(name, names[k])
    {
      i := i - 1;
    }
    if i > 0 {
      LessTotal(names[i - 1], name);
      assert names[i - 1] in names;
    }
    r := names[..i] + [name] + names[i..];
    Placed(names, name, i);
  }

  lemma Placed(names: seq<string>, name: string, i: nat)
    requires Ascending(names) && i <= |names|
    requires i > 0 ==> Less(names[i - 1], name)
    requires forall k :: i <= k < |names| ==> Less(name, names[k])
    ensures Ascending(names[..i] + [name] + names[i..])
    ensures forall n :: n in names[..i] + [name] + names[i..] <==> n in names || n == name
  {
    forall k | 0 <= k < i ensures Less(names[k], name) {
      if k < i - 1 {
        LessTransitive(names[k], names[i - 1], name);
      }
    }
    assert names == names[..i] + names[i..];
  }

  /** The keys of a map, taken in whatever order it yields them, and sorted. */
  method SortedKeys(keys: set<string>) returns (names: seq<string>)
    ensures Lists(names, keys)
  {
    names := [];
    var todo := keys;
    while todo != {}
      invariant todo <= keys
      invariant Ascending(names) && forall n :: n in names <==> n in keys - todo
      decreases |todo|
    {
      var k :| k in todo;
      names := Place(names, k);
      todo := todo - {k};
    }
  }
}
