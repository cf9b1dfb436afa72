/**
 `Array.prototype.filter` on immutable sequences, and what it promises: the
 kept elements are exactly those satisfying the predicate, in their original
 order.
 */
module Seqs {

  /** `a` can be obtained from `b` by deleting elements, keeping the order of
      the rest. */
  ghost predicate IsSubsequence<T>(a: seq<T>, b: seq<T>)
    decreases |b|
  {
    a == [] || (b != [] && ((a[0] == b[0] && IsSubsequence(a[1..], b[1..])) || IsSubsequence(a, b[1..])))
  }

  /** `s.filter(f)` */
  function Filter<T(!new)>(f: T -> bool, s: seq<T>): (r: seq<T>)
    ensures |r| <= |s|
    ensures forall x :: x in r <==> x in s && f(x)
    ensures forall x :: multiset(r)[x] == if f(x) then multiset(s)[x] else 0
  {
    if s == [] then []
    else
      assert s == [s[0]] + s[1..];
      if f(s[0]) then [s[0]] + Filter(f, s[1..]) else Filter(f, s[1..])
  }

  /** Filtering only deletes: the result is an ordered subsequence of the input. */
  lemma {:induction false} FilterIsSubsequence<T(!new)>(f: T -> bool, s: seq<T>)
    ensures IsSubsequence(Filter(f, s), s)
    decreases |s|
  {
    if s != [] {
      FilterIsSubsequence(f, s[1..]);
      if f(s[0]) {
        assert ([s[0]] + Filter(f, s[1..]))[1..] == Filter(f, s[1..]);
      }
    }
  }

  /** Filtering with a predicate every element satisfies keeps everything. */
  lemma {:induction false} FilterAll<T(!new)>(f: T -> bool, s: seq<T>)
    requires forall x :: x in s ==> f(x)
    ensures Filter(f, s) == s
    decreases |s|
  {
    if s != [] {
      assert s[0] in s;
      assert forall x :: x in s[1..] ==> x in s;
      FilterAll(f, s[1..]);
      assert [s[0]] + s[1..] == s;
    }
  }

  /** Filtering a sequence with one more element at the front. */
  lemma FilterCons<T(!new)>(f: T -> bool, x: T, s: seq<T>)
    ensures Filter(f, [x] + s) == (if f(x) then [x] else []) + Filter(f, s)
  {
    assert ([x] + s)[1..] == s;
  }

  /** Filtering a sequence with one more element at the back. */
  lemma {:induction false} FilterSnoc<T(!new)>(f: T -> bool, s: seq<T>, x: T)
    ensures Filter(f, s + [x]) == Filter(f, s) + (if f(x) then [x] else [])
    decreases |s|
  {
    if s == [] {
      assert [] + [x] == [x];
    } else {
      assert (s + [x])[1..] == s[1..] + [x];
      FilterSnoc(f, s[1..], x);
    }
  }

  /** The positions of `s` whose element satisfies `f`. */
  ghost function PositionsWhere<T>(f: T -> bool, s: seq<T>): set<int>
  {
    set i | 0 <= i < |s| && f(s[i])
  }

  /** `filter` keeps as many elements as there are positions of the input
      whose element satisfies the predicate. */
  lemma {:induction false} FilterCount<T(!new)>(f: T -> bool, s: seq<T>)
    ensures |Filter(f, s)| == |PositionsWhere(f, s)|
    decreases |s|
  {
    if s != [] {
      var s', x := s[..|s| - 1], s[|s| - 1];
      assert s == s' + [x];
      FilterSnoc(f, s', x);
      FilterCount(f, s');
      CountSnoc(f, s', x);
    }
  }

  lemma CountSnoc<T>(f: T -> bool, s: seq<T>, x: T)
    ensures |PositionsWhere(f, s + [x])| == |PositionsWhere(f, s)| + (if f(x) then 1 else 0)
  {
    var t := s + [x];
    var a := PositionsWhere(f, t);
    var b := PositionsWhere(f, s);
    assert forall i :: 0 <= i < |s| ==> t[i] == s[i];
    if f(x) {
      assert a == b + {|s|};
    } else {
      assert a == b;
    }
  }

  /** Two sequences of the same length whose elements agree position by
      position on `f` keep the same number of elements under `f`. */
  lemma {:induction false} FilterLengthPointwise<T(!new)>(f: T -> bool, s: seq<T>, s': seq<T>)
    requires |s| == |s'|
    requires forall i :: 0 <= i < |s| ==> f(s[i]) == f(s'[i])
    ensures |Filter(f, s)| == |Filter(f, s')|
    decreases |s|
  {
    if s != [] {
      assert f(s[0]) == f(s'[0]);
      FilterLengthPointwise(f, s[1..], s'[1..]);
    }
  }
}
