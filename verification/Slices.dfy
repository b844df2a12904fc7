/** Rings as circular sequences indexed by unbounded counters, and multisets of their contents. */
module Slices {
  import opened Words

  /** The entry that counter `k` selects. */
  function At<T>(d: seq<T>, k: int): T
    requires |d| > 0
  {
    d[Slot(Wide, |d|, k)]
  }

  /** The `count` entries from counter `from` on. */
  function Slice<T>(d: seq<T>, from: int, count: nat): (r: seq<T>)
    requires |d| > 0
    ensures |r| == count
  {
    seq(count, i requires 0 <= i < count => At(d, from + i))
  }

  /** Two counters less than a whole ring apart never share a slot. */
  lemma SlotsApart(n: nat, j: int, k: int)
    requires j < k < j + n || k < j < k + n
    ensures Slot(Wide, n, j) != Slot(Wide, n, k)
  {
    assert j == (j / n) * n + j % n && k == (k / n) * n + k % n;
    assert (j / n - k / n) * n == (j / n) * n - (k / n) * n;
    MultipleIsFar(j / n - k / n, n);
  }

  /** A counter one whole ring further on selects the same slot. */
  lemma SlotPeriod(n: nat, k: int)
    requires n > 0
    ensures Slot(Wide, n, k + n) == Slot(Wide, n, k)
  {
    assert k == (k / n) * n + k % n;
    assert (k / n + 1) * n == (k / n) * n + n;
    ModUnique(k + n, n, k / n + 1, k % n);
  }

  lemma SliceHead<T>(d: seq<T>, from: int, count: nat)
    requires |d| > 0 && count > 0
    ensures Slice(d, from, count) == [At(d, from)] + Slice(d, from + 1, count - 1)
  {
  }

  lemma SliceWhole<T>(d: seq<T>)
    requires |d| > 0
    ensures Slice(d, 0, |d|) == d
  {
    forall i | 0 <= i < |d|
      ensures At(d, i) == d[i]
    {
      ModUnique(i, |d|, 0, i);
    }
  }

  lemma SliceSplit<T>(d: seq<T>, from: int, a: nat, b: nat)
    requires |d| > 0
    ensures Slice(d, from, a + b) == Slice(d, from, a) + Slice(d, from + a, b)
  {
    var tail, right := Slice(d, from, a + b)[a..], Slice(d, from + a, b);
    forall i | 0 <= i < b
      ensures tail[i] == right[i]
    {
      assert from + (a + i) == (from + a) + i;
    }
  }

  /** Writing one counter's entry changes no window that leaves that counter out. */
  lemma SliceKept<T>(d: seq<T>, k: int, v: T, from: int, count: nat)
    requires |d| > 0
    requires (from + count <= k < from + |d|) || (k < from && from + count <= k + |d|)
    ensures Slice(d[Slot(Wide, |d|, k) := v], from, count) == Slice(d, from, count)
  {
    var d' := d[Slot(Wide, |d|, k) := v];
    forall i | 0 <= i < count
      ensures Slice(d', from, count)[i] == Slice(d, from, count)[i]
    {
      SlotsApart(|d|, from + i, k);
      assert At(d', from + i) == At(d, from + i);
    }
  }

  /** Writing just past a window that does not fill the ring extends the window. */
  lemma SlicePush<T>(d: seq<T>, from: int, count: nat, v: T)
    requires |d| > count
    ensures Slice(d[Slot(Wide, |d|, from + count) := v], from, count + 1) == Slice(d, from, count) + [v]
  {
    SliceKept(d, from + count, v, from, count);
    var d' := d[Slot(Wide, |d|, from + count) := v];
    assert At(d', from + count) == v;
    forall i | 0 <= i < count
      ensures Slice(d', from, count + 1)[i] == Slice(d', from, count)[i]
    {
      assert Slice(d', from, count)[i] == At(d', from + i);
    }
  }

  function Without<T>(s: seq<T>, j: nat): seq<T>
    requires j < |s|
  {
    s[..j] + s[j + 1..]
  }

  lemma WithoutMultiset<T>(s: seq<T>, j: nat)
    requires j < |s|
    ensures multiset(s) == multiset(Without(s, j)) + multiset{s[j]}
  {
    assert s == s[..j] + ([s[j]] + s[j + 1..]);
  }

  /** The contents of four lists taken together. */
  function Pool<T>(a: seq<T>, b: seq<T>, c: seq<T>, d: seq<T>): multiset<T> {
    multiset(a) + multiset(b) + multiset(c) + multiset(d)
  }

  /** An element that leaves one list for the end of another stays in the pool. */
  lemma PoolKeeps<T>(a: seq<T>, b: seq<T>, c: seq<T>, d: seq<T>, x: T)
    ensures Pool([x] + a, b, c, d) == Pool(a, b, c + [x], d)
    ensures Pool(a, b, c, [x] + d) == Pool(a, b + [x], c, d)
    ensures Pool(a, [x], c, d) == Pool(a + [x], [], c, d)
  {
  }

  lemma PoolKeepsAny<T>(a: seq<T>, b: seq<T>, c: seq<T>, d: seq<T>, j: nat)
    requires j < |c|
    ensures Pool(a, b, c, d) == Pool(a, b, Without(c, j), d + [c[j]])
  {
    WithoutMultiset(c, j);
  }

  predicate NoDuplicates<T(==)>(s: seq<T>) {
    forall i, j | 0 <= i < j < |s| :: s[i] != s[j]
  }

  lemma {:induction false} NoDuplicatesCount<T>(s: seq<T>, x: T)
    requires NoDuplicates(s)
    ensures multiset(s)[x] <= 1
  {
    if s != [] {
      assert s == [s[0]] + s[1..];
      NoDuplicatesCount(s[1..], x);
    }
  }

  lemma CountNoDuplicates<T>(s: seq<T>)
    requires forall x :: multiset(s)[x] <= 1
    ensures NoDuplicates(s)
  {
    forall i, j | 0 <= i < j < |s|
      ensures s[i] != s[j]
    {
      CountTwice(s[..j], s[j..], i);
      assert s == s[..j] + s[j..];
    }
  }

  lemma CountTwice<T>(s: seq<T>, t: seq<T>, i: nat)
    requires i < |s| && t != []
    ensures s[i] == t[0] ==> multiset(s + t)[s[i]] >= 2
  {
    assert s[i] in multiset(s) && t[0] in multiset(t);
  }

  lemma PoolDistinct<T>(a: seq<T>, b: seq<T>, c: seq<T>, d: seq<T>)
    requires forall x :: Pool(a, b, c, d)[x] <= 1
    ensures NoDuplicates(a + b + c + d)
  {
    assert multiset(a + b + c + d) == Pool(a, b, c, d);
    CountNoDuplicates(a + b + c + d);
  }
}
