/**
 * The record store's `$match`, `$sort`, `$skip` and `$limit` stages over a
 * collection kept in natural order.
 *
 * A sort is descending on a two-part key compared lexicographically, which
 * covers both `{createdAt: -1}` and `{isTrending: -1, createdAt: -1}`. Records
 * with equal keys keep their natural order.
 */
module Ordering {

  datatype Key = Key(major: int, minor: int)

  /** `a` may come before `b` in a descending sort. */
  predicate AtLeast(a: Key, b: Key) {
    a.major > b.major || (a.major == b.major && a.minor >= b.minor)
  }

  ghost predicate Descending<T>(s: seq<T>, key: T -> Key) {
    forall i, j :: 0 <= i < j < |s| ==> AtLeast(key(s[i]), key(s[j]))
  }

  /** `$match`: the records satisfying `p`, in their natural order. */
  function Filter<T>(s: seq<T>, p: T -> bool): (r: seq<T>)
    ensures |r| <= |s|
    ensures forall k :: 0 <= k < |r| ==> r[k] in s && p(r[k])
    ensures forall k :: 0 <= k < |s| && p(s[k]) ==> s[k] in r
  {
    if s == [] then []
    else
      var rest := Filter(s[1..], p);
      assert forall k :: 1 <= k < |s| ==> s[k] == s[1..][k - 1];
      if p(s[0]) then [s[0]] + rest else rest
  }

  /** `$match` drops no copy of a record it admits: the admitted and the refused records together make up the input. */
  lemma {:induction false} FilterPartition<T>(s: seq<T>, p: T -> bool)
    ensures multiset(s) == multiset(Filter(s, p)) + multiset(Filter(s, x => !p(x)))
  {
    if s != [] {
      assert s == [s[0]] + s[1..];
      FilterPartition(s[1..], p);
    }
  }

  /** `$match` keeps natural order: filtering a concatenation filters each part in turn. */
  lemma {:induction false} FilterAppend<T>(a: seq<T>, b: seq<T>, p: T -> bool)
    ensures Filter(a + b, p) == Filter(a, p) + Filter(b, p)
  {
    if a != [] {
      assert (a + b)[1..] == a[1..] + b;
      FilterAppend(a[1..], b, p);
    } else {
      assert a + b == b;
    }
  }

  /** Places `x` before the first record whose key it is at least as large as. */
  function Insert<T>(x: T, s: seq<T>, key: T -> Key): (r: seq<T>)
    requires Descending(s, key)
    ensures Descending(r, key)
    ensures multiset(r) == multiset(s) + multiset{x}
  {
    if s == [] then [x]
    else if AtLeast(key(x), key(s[0])) then [x] + s
    else
      var t := Insert(x, s[1..], key);
      assert s == [s[0]] + s[1..];
      forall k | 0 <= k < |t|
        ensures AtLeast(key(s[0]), key(t[k]))
      {
        assert t[k] in multiset(t);
        if t[k] != x {
          assert t[k] in multiset(s[1..]);
          var j :| 0 <= j < |s[1..]| && s[1..][j] == t[k];
          assert s[j + 1] == t[k];
        }
      }
      [s[0]] + t
  }

  /** `$sort` descending on `key`. */
  function SortDesc<T>(s: seq<T>, key: T -> Key): (r: seq<T>)
    ensures Descending(r, key)
    ensures multiset(r) == multiset(s)
    ensures |r| == |s|
  {
    if s == [] then []
    else
      assert s == [s[0]] + s[1..];
      Insert(s[0], SortDesc(s[1..], key), key)
  }

  /** `$skip` then `$limit`. */
  function Window<T>(s: seq<T>, skip: nat, limit: nat): (r: seq<T>)
    ensures |r| <= limit
    ensures |r| == if skip >= |s| then 0 else if skip + limit <= |s| then limit else |s| - skip
    ensures forall k :: 0 <= k < |r| ==> r[k] == s[skip + k]
  {
    if skip >= |s| then [] else s[skip..if skip + limit <= |s| then skip + limit else |s|]
  }

  /** `$limit` alone. */
  function Take<T>(s: seq<T>, n: nat): (r: seq<T>)
    ensures |r| == if n <= |s| then n else |s|
    ensures r == s[..|r|]
  {
    if n <= |s| then s[..n] else s
  }

  /** A page of a sorted list is itself sorted. */
  lemma WindowDescending<T>(s: seq<T>, key: T -> Key, skip: nat, limit: nat)
    requires Descending(s, key)
    ensures Descending(Window(s, skip, limit), key)
  {
  }

  /**
   * The first `n` records of a sort are the largest: each has a key at least
   * that of every record left out, and together with those they are the input.
   */
  lemma {:induction false} TakeKeepsLargest<T>(s: seq<T>, key: T -> Key, n: nat)
    ensures var r := Take(SortDesc(s, key), n);
            && multiset(r) <= multiset(s)
            && Descending(r, key)
            && forall i, x :: 0 <= i < |r| && x in multiset(s) - multiset(r) ==> AtLeast(key(r[i]), key(x))
  {
    var sorted := SortDesc(s, key);
    var r := Take(sorted, n);
    SplitMultiset(sorted, |r|);
    forall i, x | 0 <= i < |r| && x in multiset(s) - multiset(r)
      ensures AtLeast(key(r[i]), key(x))
    {
      PrefixDominates(sorted, key, |r|, i, x);
    }
  }

  lemma SplitMultiset<T>(s: seq<T>, m: nat)
    requires m <= |s|
    ensures multiset(s) == multiset(s[..m]) + multiset(s[m..])
  {
    assert s == s[..m] + s[m..];
  }

  /** In a descending sequence, a record before position `m` is at least every record from `m` on. */
  lemma PrefixDominates<T>(s: seq<T>, key: T -> Key, m: nat, i: nat, x: T)
    requires Descending(s, key) && i < m <= |s| && x in multiset(s[m..])
    ensures AtLeast(key(s[i]), key(x))
  {
    var j := IndexIn(s[m..], x);
    assert s[m + j] == x;
  }

  /** A position of a member of a sequence. */
  lemma IndexIn<T>(s: seq<T>, x: T) returns (j: nat)
    requires x in multiset(s)
    ensures j < |s| && s[j] == x
  {
    assert x in s;
    j :| 0 <= j < |s| && s[j] == x;
  }
}
