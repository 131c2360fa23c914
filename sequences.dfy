/**
 * Sequence plumbing shared by the query pipelines: a stable insertion sort under a caller's
 * ordering (what LINQ's OrderBy / OrderByDescending produce) and the Skip / Take operators.
 */
module Sequences {

  /** `le` relates every pair one way or the other. */
  ghost predicate Total<T(!new)>(le: (T, T) -> bool)
  {
    forall a: T, b: T :: le(a, b) || le(b, a)
  }

  ghost predicate Transitive<T(!new)>(le: (T, T) -> bool)
  {
    forall a: T, b: T, c: T :: le(a, b) && le(b, c) ==> le(a, c)
  }

  /** Every element comes no later under `le` than every element after it. */
  ghost predicate SortedBy<T>(s: seq<T>, le: (T, T) -> bool)
  {
    forall i, j :: 0 <= i < j < |s| ==> le(s[i], s[j])
  }

  /** Puts `x` in front of the first element it may precede, so equal elements keep their order. */
  function Insert<T>(x: T, s: seq<T>, le: (T, T) -> bool): (r: seq<T>)
    ensures multiset(r) == multiset(s) + multiset{x}
    ensures |r| == |s| + 1
  {
    if s == [] then [x]
    else if le(x, s[0]) then [x] + s
    else
      assert s == [s[0]] + s[1..];
      [s[0]] + Insert(x, s[1..], le)
  }

  function SortBy<T>(s: seq<T>, le: (T, T) -> bool): (r: seq<T>)
    ensures multiset(r) == multiset(s)
    ensures |r| == |s|
  {
    if s == [] then []
    else
      assert s == [s[0]] + s[1..];
      Insert(s[0], SortBy(s[1..], le), le)
  }

  /** Every element of `s` may come after `b`. */
  ghost predicate AllAfter<T>(b: T, s: seq<T>, le: (T, T) -> bool)
  {
    forall k :: 0 <= k < |s| ==> le(b, s[k])
  }

  lemma AllAfterInsert<T>(b: T, x: T, s: seq<T>, le: (T, T) -> bool)
    requires AllAfter(b, s, le) && le(b, x)
    ensures AllAfter(b, Insert(x, s, le), le)
  {
    var u := Insert(x, s, le);
    forall k | 0 <= k < |u| ensures le(b, u[k]) {
      assert u[k] in multiset(u);
      if u[k] != x {
        assert u[k] in multiset(s);
        var m :| 0 <= m < |s| && s[m] == u[k];
      }
    }
  }

  lemma SortedCons<T>(b: T, s: seq<T>, le: (T, T) -> bool)
    requires SortedBy(s, le) && AllAfter(b, s, le)
    ensures SortedBy([b] + s, le)
  {
    var r := [b] + s;
    forall i, j | 0 <= i < j < |r| ensures le(r[i], r[j]) {
      assert r[j] == s[j - 1];
      if i > 0 {
        assert r[i] == s[i - 1];
      }
    }
  }

  lemma SortedTail<T>(s: seq<T>, le: (T, T) -> bool)
    requires SortedBy(s, le) && s != []
    ensures SortedBy(s[1..], le) && AllAfter(s[0], s[1..], le)
  {
    var t := s[1..];
    forall i, j | 0 <= i < j < |t| ensures le(t[i], t[j]) {
      assert t[i] == s[i + 1] && t[j] == s[j + 1];
    }
    forall k | 0 <= k < |t| ensures le(s[0], t[k]) {
      assert t[k] == s[k + 1];
    }
  }

  lemma AllAfterChain<T(!new)>(x: T, s: seq<T>, le: (T, T) -> bool)
    requires Transitive(le) && SortedBy(s, le) && s != [] && le(x, s[0])
    ensures AllAfter(x, s, le)
  {
    forall k | 0 <= k < |s| ensures le(x, s[k]) {
      if k > 0 {
        assert le(s[0], s[k]);
      }
    }
  }

  lemma {:induction false} InsertSorted<T(!new)>(x: T, s: seq<T>, le: (T, T) -> bool)
    requires Total(le) && Transitive(le)
    requires SortedBy(s, le)
    ensures SortedBy(Insert(x, s, le), le)
    decreases |s|
  {
    if s == [] {
      assert Insert(x, s, le) == [x];
    } else if le(x, s[0]) {
      AllAfterChain(x, s, le);
      SortedCons(x, s, le);
    } else {
      assert le(s[0], x);
      SortedTail(s, le);
      InsertSorted(x, s[1..], le);
      AllAfterInsert(s[0], x, s[1..], le);
      SortedCons(s[0], Insert(x, s[1..], le), le);
    }
  }

  /** Sorting yields a permutation in order. */
  lemma {:induction false} SortBySorted<T(!new)>(s: seq<T>, le: (T, T) -> bool)
    requires Total(le) && Transitive(le)
    ensures SortedBy(SortBy(s, le), le)
    decreases |s|
  {
    if s != [] {
      SortBySorted(s[1..], le);
      InsertSorted(s[0], SortBy(s[1..], le), le);
    }
  }

  /** LINQ `Skip(n)`: a count of zero or less skips nothing. */
  function Skip<T>(s: seq<T>, n: int): (r: seq<T>)
    ensures n <= 0 ==> r == s
    ensures 0 <= n <= |s| ==> r == s[n..]
    ensures n >= |s| ==> r == []
    ensures |r| == if n <= 0 then |s| else if n >= |s| then 0 else |s| - n
  {
    if n <= 0 then s else if n >= |s| then [] else s[n..]
  }

  /** LINQ `Take(n)`: a count of zero or less takes nothing. */
  function Take<T>(s: seq<T>, n: int): (r: seq<T>)
    ensures n <= 0 ==> r == []
    ensures 0 <= n <= |s| ==> r == s[..n]
    ensures n >= |s| ==> r == s
    ensures |r| <= |s| && (n >= 0 ==> |r| <= n)
  {
    if n <= 0 then [] else if n >= |s| then s else s[..n]
  }

  /** A page is a contiguous run of the source, so order and membership carry over. */
  lemma PageIsSlice<T>(s: seq<T>, skip: int, take: int)
    ensures var page := Take(Skip(s, skip), take);
            var from := if skip <= 0 then 0 else if skip >= |s| then |s| else skip;
            from + |page| <= |s| && page == s[from..from + |page|]
  {
  }

  /** Two consecutive pages of the same size together cover the double-size page at the first offset. */
  lemma ConsecutivePages<T>(s: seq<T>, skip: int, size: int)
    requires skip >= 0 && size >= 0
    ensures Take(Skip(s, skip), size) + Take(Skip(s, skip + size), size) == Take(Skip(s, skip), 2 * size)
  {
    if skip + size < |s| {
      assert Skip(s, skip + size) == Skip(s, skip)[size..];
    }
  }

  /** A page of a sorted sequence is sorted and holds only elements of the sequence. */
  lemma PageOfSorted<T>(s: seq<T>, skip: int, take: int, le: (T, T) -> bool)
    requires SortedBy(s, le)
    ensures SortedBy(Take(Skip(s, skip), take), le)
    ensures multiset(Take(Skip(s, skip), take)) <= multiset(s)
  {
    var page := Take(Skip(s, skip), take);
    PageIsSlice(s, skip, take);
    var from := if skip <= 0 then 0 else if skip >= |s| then |s| else skip;
    SliceSorted(s, from, from + |page|, le);
    assert s == s[..from] + page + s[from + |page|..];
    assert multiset(s) == multiset(s[..from]) + multiset(page) + multiset(s[from + |page|..]);
  }

  /** A slice of a sorted sequence is sorted. */
  lemma SliceSorted<T>(s: seq<T>, from: int, to: int, le: (T, T) -> bool)
    requires 0 <= from <= to <= |s| && SortedBy(s, le)
    ensures SortedBy(s[from..to], le)
  {
    var t := s[from..to];
    forall i, j | 0 <= i < j < |t| ensures le(t[i], t[j]) {
      assert t[i] == s[from + i] && t[j] == s[from + j];
    }
  }
}
