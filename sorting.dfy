/** Python's `sorted()`, as a stable insertion sort under a caller-supplied order,
    and `sorted(list(s))` for a set of integers. */
module Sorting {

  predicate SortedBy<T>(s: seq<T>, le: (T, T) -> bool)
  {
    forall i, j :: 0 <= i < j < |s| ==> le(s[i], s[j])
  }

  predicate StrictlyAscending(s: seq<int>)
  {
    forall i, j :: 0 <= i < j < |s| ==> s[i] < s[j]
  }

  /** Inserts `x` before the first element it is `le` to. */
  function Insert<T(!new)>(x: T, s: seq<T>, le: (T, T) -> bool): (r: seq<T>)
    requires forall a, b :: le(a, b) || le(b, a)
    requires forall a, b, c :: le(a, b) && le(b, c) ==> le(a, c)
    requires SortedBy(s, le)
    ensures SortedBy(r, le)
    ensures multiset(r) == multiset(s) + multiset{x}
  {
    if s == [] then [x]
    else if le(x, s[0]) then
      ChainBound(x, s, le);
      SortedCons(x, s, le);
      [x] + s
    else
      var rest := Insert(x, s[1..], le);
      assert s == [s[0]] + s[1..];
      LowerBound(s[0], x, s[1..], rest, le);
      SortedCons(s[0], rest, le);
      [s[0]] + rest
  }

  /** A lower bound of `x` and of every element of `s` bounds every element of a
      permutation of `s` plus `x`. */
  lemma LowerBound<T>(y: T, x: T, s: seq<T>, r: seq<T>, le: (T, T) -> bool)
    requires multiset(r) == multiset(s) + multiset{x}
    requires le(y, x) && forall k :: 0 <= k < |s| ==> le(y, s[k])
    ensures forall k :: 0 <= k < |r| ==> le(y, r[k])
  {
    forall k | 0 <= k < |r| ensures le(y, r[k]) {
      assert r[k] in multiset(r);
      if r[k] != x {
        assert r[k] in multiset(s);
        var j :| 0 <= j < |s| && s[j] == r[k];
      }
    }
  }

  /** What is `le` to the first element of a sorted sequence is `le` to all of them. */
  lemma ChainBound<T(!new)>(x: T, s: seq<T>, le: (T, T) -> bool)
    requires forall a, b, c :: le(a, b) && le(b, c) ==> le(a, c)
    requires SortedBy(s, le) && s != [] && le(x, s[0])
    ensures forall k :: 0 <= k < |s| ==> le(x, s[k])
  {
    forall k | 0 < k < |s| ensures le(x, s[k]) {
      assert le(s[0], s[k]);
    }
  }

  lemma SortedCons<T>(y: T, r: seq<T>, le: (T, T) -> bool)
    requires SortedBy(r, le) && forall k :: 0 <= k < |r| ==> le(y, r[k])
    ensures SortedBy([y] + r, le)
  {
    forall i, j | 0 <= i < j < |[y] + r| ensures le(([y] + r)[i], ([y] + r)[j]) {
      if i > 0 { assert ([y] + r)[i] == r[i - 1]; }
      assert ([y] + r)[j] == r[j - 1];
    }
  }

  /** `sorted(s, key=...)`: a permutation of `s` that is ordered by `le`. */
  function Sort<T(!new)>(s: seq<T>, le: (T, T) -> bool): (r: seq<T>)
    requires forall a, b :: le(a, b) || le(b, a)
    requires forall a, b, c :: le(a, b) && le(b, c) ==> le(a, c)
    ensures SortedBy(r, le)
    ensures multiset(r) == multiset(s)
    ensures |r| == |s|
  {
    if s == [] then []
    else
      assert s == [s[0]] + s[1..];
      Insert(s[0], Sort(s[1..], le), le)
  }

  /** Every element of a sort's result is an element of its input and vice versa. */
  lemma SortElements<T(!new)>(s: seq<T>, le: (T, T) -> bool)
    requires forall a, b :: le(a, b) || le(b, a)
    requires forall a, b, c :: le(a, b) && le(b, c) ==> le(a, c)
    ensures forall x :: x in Sort(s, le) <==> x in s
  {
    var r := Sort(s, le);
    forall x ensures x in r <==> x in s {
      assert x in r <==> x in multiset(r);
      assert x in s <==> x in multiset(s);
    }
  }

  lemma {:induction false} MinExists(s: set<int>)
    requires s != {}
    ensures exists m :: m in s && forall x :: x in s ==> m <= x
    decreases |s|
  {
    var y := PickOne(s);
    if s != {y} {
      MinExists(s - {y});
      var m' :| m' in s - {y} && forall x :: x in s - {y} ==> m' <= x;
      var m := if y < m' then y else m';
      forall x | x in s ensures m <= x {
        if x != y { assert x in s - {y}; }
      }
    }
  }

  lemma PickOne(s: set<int>) returns (y: int)
    requires s != {}
    ensures y in s
  {
    if forall x :: x !in s {
      assert false;
    }
    y :| y in s;
  }

  /** The least element of a non-empty set of integers. */
  function Min(s: set<int>): (m: int)
    requires s != {}
    ensures m in s && forall x :: x in s ==> m <= x
  {
    MinExists(s);
    var m :| m in s && forall x :: x in s ==> m <= x;
    m
  }

  /** `sorted(list(s))` for a set of integers: its elements, ascending, each once. */
  function SortedSet(s: set<int>): (r: seq<int>)
    ensures StrictlyAscending(r)
    ensures forall x :: x in r <==> x in s
    ensures |r| == |s|
    decreases |s|
  {
    if s == {} then []
    else
      var m := Min(s);
      var rest := SortedSet(s - {m});
      assert forall k :: 0 <= k < |rest| ==> m < rest[k] by {
        forall k | 0 <= k < |rest| ensures m < rest[k] {
          assert rest[k] in s - {m};
        }
      }
      [m] + rest
  }

  lemma SortedSetSmall(s: set<int>)
    ensures s == {} ==> SortedSet(s) == []
    ensures forall x :: s == {x} ==> SortedSet(s) == [x]
  {
    forall x | s == {x} ensures SortedSet(s) == [x] {
      var r := SortedSet(s);
      assert r[0] in s;
    }
  }
}
