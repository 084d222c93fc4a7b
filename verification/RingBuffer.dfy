/** The circular snapshot buffer against the plain sequence of what was pushed since the last clear. */
module RingBuffer {
  import opened Sequences

  const DEFAULT_CAPACITY := 3600

  /** `x % n` for an index that has run at most once past the end. */
  lemma WrapOnce(x: nat, n: nat)
    requires n >= 1 && x < 2 * n
    ensures x % n == if x < n then x else x - n
  {
    var q, r := x / n, x % n;
    assert x == q * n + r;
    if q >= 2 {
      Scale(2, q, n);
      assert false;
    }
    if q == 1 {
      assert q * n == n;
    }
  }

  lemma Scale(a: nat, b: nat, n: nat)
    requires a <= b
    ensures a * n <= b * n
  {
  }

  /** Go's copy between two arrays: n elements of `src` from `from` on, to `dst` from `at` on. */
  method Copy<T>(dst: array<T>, at: nat, src: array<T>, from: nat, n: nat)
    requires dst != src && at + n <= dst.Length && from + n <= src.Length
    modifies dst
    ensures dst[..at] == old(dst[..at]) && dst[at..at + n] == src[from..from + n] && dst[at + n..] == old(dst[at + n..])
  {
    for i := 0 to n
      invariant dst[..at] == old(dst[..at]) && dst[at + n..] == old(dst[at + n..])
      invariant forall k :: at <= k < at + i ==> dst[k] == src[from + (k - at)]
    {
      dst[at + i] := src[from + i];
    }
  }

  class RingBuffer<T(0)> {
    const capacity: nat
    const data: array<T>
    var head: nat
    var size: nat
    ghost var pushes: seq<T>  // since construction or the last clear

    /** Which push a cell of the array last held: the cells before `head` are of the current round. */
    ghost function Age(j: int): int
      reads this
    {
      if j < head then |pushes| - head + j else |pushes| - head + j - capacity
    }

    ghost predicate Valid()
      reads this, data
    {
      && capacity >= 1 && data.Length == capacity
      && head < capacity && size == Min(|pushes|, capacity)
      && (size < capacity ==> head == size)
      && forall j :: 0 <= j < capacity && |pushes| - size <= Age(j) ==> data[j] == pushes[Age(j)]
    }

    constructor (capacity: int)
      ensures Valid() && fresh(data) && pushes == []
      ensures this.capacity == if capacity <= 0 then 3600 else capacity
    {
      var n: nat := if capacity <= 0 then DEFAULT_CAPACITY else capacity;
      this.capacity, data := n, new T[n];
      head, size, pushes := 0, 0, [];
    }

    method Push(x: T)
      requires Valid()
      modifies this, data
      ensures Valid() && pushes == old(pushes) + [x]
    {
      data[head] := x;
      WrapOnce(head + 1, capacity);
      head := (head + 1) % capacity;
      if size < capacity {
        size := size + 1;
      }
      pushes := pushes + [x];
    }

    method Clear()
      requires Valid()
      modifies this
      ensures Valid() && pushes == []
    {
      head, size, pushes := 0, 0, [];
    }

    method Size() returns (n: nat)
      requires Valid()
      ensures n == Min(|pushes|, capacity)
    {
      n := size;
    }

    method GetLatest() returns (x: T, ok: bool)
      requires Valid()
      ensures ok == (pushes != [])
      ensures ok ==> x == pushes[|pushes| - 1]
    {
      ok := size != 0;
      x := data[0];
      if ok {
        WrapOnce(head - 1 + capacity, capacity);
        x := data[(head - 1 + capacity) % capacity];
        assert Age(if head == 0 then capacity - 1 else head - 1) == |pushes| - 1;
      }
    }

    /** A stretch of cells that does not cross `head` holds consecutive pushes. */
    lemma InOrder(j: nat, n: nat)
      requires Valid() && n > 0 && j + n <= capacity && (j + n <= head || head <= j)
      requires |pushes| - size <= Age(j)
      ensures Age(j) + n <= |pushes| && data[j..j + n] == pushes[Age(j)..Age(j) + n]
    {
      assert forall i :: j <= i < j + n ==> Age(i) == Age(j) + (i - j);
    }

    /** The newest m pushes when they do not cross the end of the array. */
    lemma NewestStraight(start: nat, m: nat)
      requires Valid() && 0 < m <= size
      requires start == if head >= m then head - m else head - m + capacity
      requires start + m <= capacity
      ensures data[start..start + m] == Last(pushes, m)
    {
      InOrder(start, m);
    }

    /** The newest m pushes when they do. */
    lemma NewestWrapped(start: nat, m: nat)
      requires Valid() && 0 < m <= size
      requires start == if head >= m then head - m else head - m + capacity
      requires start + m >= capacity && start >= head
      ensures data[start..capacity] + data[0..m - (capacity - start)] == Last(pushes, m)
    {
      var first, from := capacity - start, |pushes| - m;
      assert Age(start) == from;
      InOrder(start, first);
      if m > first {
        assert Age(0) == from + first;
        InOrder(0, m - first);
      }
      Joined(data[start..capacity], data[0..m - first], pushes, first, m);
    }

    static lemma Joined(a: seq<T>, b: seq<T>, s: seq<T>, k: nat, m: nat)
      requires k <= m <= |s| && a == s[|s| - m..|s| - m + k] && b == s[|s| - m + k..]
      ensures a + b == Last(s, m)
    {
    }

    /** A fresh copy of one stretch of cells. */
    method Straight(start: nat, m: nat) returns (result: array<T>)
      requires data.Length == capacity && start + m <= capacity
      ensures fresh(result) && result[..] == data[start..start + m]
    {
      result := new T[m];
      Copy(result, 0, data, start, m);
      assert result[..] == result[0..m];
    }

    /** A fresh copy of the cells from `start` to the end and of those from 0 on, m in all. */
    method Wrapped(start: nat, m: nat) returns (result: array<T>)
      requires data.Length == capacity && start <= capacity && capacity - start <= m <= capacity
      ensures fresh(result) && result[..] == data[start..capacity] + data[0..m - (capacity - start)]
    {
      var firstChunk := capacity - start;
      result := new T[m];
      Copy(result, 0, data, start, firstChunk);
      Copy(result, firstChunk, data, 0, m - firstChunk);
      assert result[..] == result[..firstChunk] + result[firstChunk..firstChunk + (m - firstChunk)];
    }

    /** Everything kept, oldest first. */
    method GetAll() returns (result: array<T>)
      requires Valid()
      ensures fresh(result) && result[..] == Last(pushes, capacity)
    {
      if size == 0 {
        result := new T[0];
      } else if size < capacity {
        NewestStraight(0, size);
        result := Straight(0, size);
      } else {
        NewestWrapped(head, size);
        result := Wrapped(head, size);
      }
    }

    /** The newest n, oldest first; all of them when n is larger, none when it is not positive. */
    method GetLastN(n: int) returns (result: array<T>)
      requires Valid()
      ensures fresh(result) && result[..] == Last(Last(pushes, capacity), if n <= 0 then 0 else n)
    {
      if size == 0 || n <= 0 {
        result := new T[0];
        return;
      }
      var m := if n > size then size else n;
      LastOfKept(n);
      WrapOnce(head - m + capacity, capacity);
      var startIdx := (head - m + capacity) % capacity;
      if startIdx + m <= capacity {
        NewestStraight(startIdx, m);
        result := Straight(startIdx, m);
      } else {
        NewestWrapped(startIdx, m);
        result := Wrapped(startIdx, m);
      }
    }

    lemma LastOfKept(n: int)
      requires Valid() && n > 0
      ensures Last(Last(pushes, capacity), n) == Last(pushes, if n > size then size else n)
    {
    }
  }
}
