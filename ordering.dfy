/**
 * The query operators the store composes: filtering, sorting on one integer
 * key in a given direction, and skip-then-limit paging.
 */
module Ordering {

  datatype Direction = Ascending | Descending

  predicate InOrder(x: int, y: int, dir: Direction) {
    if dir == Ascending then x <= y else x >= y
  }

  ghost predicate Sorted<T>(s: seq<T>, key: T -> int, dir: Direction) {
    forall i, j :: 0 <= i < j < |s| ==> InOrder(key(s[i]), key(s[j]), dir)
  }

  /** The elements of `s` that `keep` accepts, in their original order. */
  function Filter<T(!new)>(s: seq<T>, keep: T -> bool): (r: seq<T>)
    ensures forall x :: x in r <==> x in s && keep(x)
    ensures multiset(r) <= multiset(s)
    ensures |r| <= |s|
  {
    if s == [] then []
    else
      assert s == [s[0]] + s[1..];
      if keep(s[0]) then [s[0]] + Filter(s[1..], keep) else Filter(s[1..], keep)
  }

  /**
   * Filtering keeps order and multiplicity: it distributes over
   * concatenation, so every accepted element stays in its place relative to
   * the other accepted ones, and an element accepted twice appears twice.
   */
  lemma {:induction false} FilterAppend<T(!new)>(a: seq<T>, b: seq<T>, keep: T -> bool)
    ensures Filter(a + b, keep) == Filter(a, keep) + Filter(b, keep)
  {
    if a != [] {
      assert (a + b)[1..] == a[1..] + b;
      FilterAppend(a[1..], b, keep);
    } else {
      assert a + b == b;
    }
  }

  function Insert<T>(x: T, s: seq<T>, key: T -> int, dir: Direction): (r: seq<T>)
    requires Sorted(s, key, dir)
    ensures multiset(r) == multiset(s) + multiset{x}
    ensures Sorted(r, key, dir)
  {
    if s == [] || InOrder(key(x), key(s[0]), dir) then [x] + s
    else
      var rest := Insert(x, s[1..], key, dir);
      assert s == [s[0]] + s[1..];
      assert forall j :: 0 <= j < |rest| ==> InOrder(key(s[0]), key(rest[j]), dir) by {
        forall j | 0 <= j < |rest| ensures InOrder(key(s[0]), key(rest[j]), dir) {
          assert rest[j] in multiset(rest);
          if rest[j] != x {
            assert rest[j] in multiset(s[1..]);
            var k :| 0 <= k < |s[1..]| && s[1..][k] == rest[j];
            assert s[k + 1] == rest[j];
          }
        }
      }
      [s[0]] + rest
  }

  /** A sorting of `s` on `key`; the order among equal keys is unspecified. */
  function SortBy<T(!new)>(s: seq<T>, key: T -> int, dir: Direction): (r: seq<T>)
    ensures multiset(r) == multiset(s)
    ensures Sorted(r, key, dir)
    ensures |r| == |s|
    ensures forall x :: x in r <==> x in s
  {
    if s == [] then []
    else
      assert s == [s[0]] + s[1..];
      var r := Insert(s[0], SortBy(s[1..], key, dir), key, dir);
      assert |multiset(r)| == |multiset(s)|;
      assert forall x :: x in r <==> x in multiset(s);
      r
  }

  /** No two elements of `s` that differ share a key. */
  ghost predicate DistinctKeys<T>(s: seq<T>, key: T -> int) {
    forall x, y :: x in s && y in s && key(x) == key(y) ==> x == y
  }

  /**
   * With distinct keys there is only one sorted arrangement: any two sorted
   * permutations of the same elements are equal, whatever sort produced them.
   */
  lemma {:induction false} SortedUnique<T>(s: seq<T>, t: seq<T>, key: T -> int, dir: Direction)
    requires multiset(s) == multiset(t)
    requires Sorted(s, key, dir) && Sorted(t, key, dir)
    requires DistinctKeys(s, key)
    ensures s == t
  {
    if s == [] {
      assert |t| == |multiset(t)| == 0;
    } else {
      SortedHeadsEqual(s, t, key, dir);
      TailsSameElements(s, t);
      assert DistinctKeys(s[1..], key) by {
        forall x | x in s[1..] ensures x in s { }
      }
      SortedUnique(s[1..], t[1..], key, dir);
      assert s == [s[0]] + s[1..] && t == [t[0]] + t[1..];
    }
  }

  /** Both sorted arrangements start with the element of least (or greatest) key. */
  lemma SortedHeadsEqual<T>(s: seq<T>, t: seq<T>, key: T -> int, dir: Direction)
    requires s != [] && multiset(s) == multiset(t)
    requires Sorted(s, key, dir) && Sorted(t, key, dir)
    requires DistinctKeys(s, key)
    ensures t != [] && s[0] == t[0]
  {
    assert s[0] in multiset(t);
    var j :| 0 <= j < |t| && t[j] == s[0];
    assert t[0] in multiset(s);
    var i :| 0 <= i < |s| && s[i] == t[0];
    assert i == 0 || InOrder(key(s[0]), key(s[i]), dir);
    assert j == 0 || InOrder(key(t[0]), key(t[j]), dir);
  }

  lemma TailsSameElements<T>(s: seq<T>, t: seq<T>)
    requires s != [] && t != [] && s[0] == t[0] && multiset(s) == multiset(t)
    ensures multiset(s[1..]) == multiset(t[1..])
  {
    assert s == [s[0]] + s[1..] && t == [t[0]] + t[1..];
    assert multiset(s) == multiset{s[0]} + multiset(s[1..]);
    assert multiset(t) == multiset{t[0]} + multiset(t[1..]);
    calc {
      multiset(s[1..]);
      multiset(s) - multiset{s[0]};
      multiset(t) - multiset{t[0]};
      multiset(t[1..]);
    }
  }

  function Min(a: int, b: int): int {
    if a <= b then a else b
  }

  /** Skip `offset` elements, then keep at most `limit`. */
  function Page<T(!new)>(s: seq<T>, offset: int, limit: int): (r: seq<T>)
    requires offset >= 0 && limit > 0
    ensures |r| == if offset >= |s| then 0 else Min(limit, |s| - offset)
    ensures forall i :: 0 <= i < |r| ==> r[i] == s[offset + i]
    ensures forall x :: x in r ==> x in s
  {
    if offset >= |s| then [] else s[offset..offset + Min(limit, |s| - offset)]
  }

  /** A page of a sorted sequence is sorted, and holds only elements of it. */
  lemma PageOfSorted<T(!new)>(s: seq<T>, offset: int, limit: int, key: T -> int, dir: Direction)
    requires offset >= 0 && limit > 0
    requires Sorted(s, key, dir)
    ensures Sorted(Page(s, offset, limit), key, dir)
    ensures multiset(Page(s, offset, limit)) <= multiset(s)
  {
    var r := Page(s, offset, limit);
    if offset < |s| {
      assert r == s[offset..offset + |r|];
      assert s == s[..offset] + r + s[offset + |r|..];
    }
  }

  /** Two consecutive pages make up the page whose limit is their sum. */
  lemma PagesConcatenate<T(!new)>(s: seq<T>, offset: int, l1: int, l2: int)
    requires offset >= 0 && l1 > 0 && l2 > 0
    ensures Page(s, offset, l1) + Page(s, offset + l1, l2) == Page(s, offset, l1 + l2)
  {
  }

  /** The first `n` pages of size `k`, concatenated. */
  function Pages<T(!new)>(s: seq<T>, k: int, n: nat): seq<T>
    requires k > 0
  {
    if n == 0 then [] else Pages(s, k, n - 1) + Page(s, (n - 1) * k, k)
  }

  /**
   * Paging is stable: reading pages of size `k` from offset 0 gives back the
   * prefix of length n * k, each element exactly once, and once n * k covers
   * the whole sequence the pages reproduce it exactly.
   */
  lemma {:induction false} PagesCover<T(!new)>(s: seq<T>, k: int, n: nat)
    requires k > 0
    ensures Pages(s, k, n) == s[..Min(n * k, |s|)]
    ensures n * k >= |s| ==> Pages(s, k, n) == s
  {
    if n > 0 {
      PagesCover(s, k, n - 1);
      assert (n - 1) * k + k == n * k;
      var m := (n - 1) * k;
      if m < |s| {
        assert s[..Min(m, |s|)] + Page(s, m, k) == s[..Min(n * k, |s|)];
      } else {
        assert Min(n * k, |s|) == |s|;
      }
    }
  }
}
