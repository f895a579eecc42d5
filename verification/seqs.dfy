/** `Array.prototype.filter` on immutable sequences. */
module Seqs {

  /** The elements of `s` that satisfy `p`, in their original order. Each
      passing element is kept as often as it occurs, and no other element
      is kept. */
  function Filter<T(!new)>(p: T -> bool, s: seq<T>): (r: seq<T>)
    ensures |r| <= |s|
    ensures forall x :: x in r <==> x in s && p(x)
    ensures forall x :: multiset(r)[x] == if p(x) then multiset(s)[x] else 0
  {
    if |s| == 0 then []
    else
      var rest := Filter(p, s[1..]);
      assert s == [s[0]] + s[1..];
      if p(s[0]) then [s[0]] + rest else rest
  }

  /** `r` can be obtained from `s` by deleting elements: what is left keeps
      its order. */
  predicate IsSubsequence<T(==)>(r: seq<T>, s: seq<T>)
    decreases |s|
  {
    if |r| == 0 then true
    else if |s| == 0 then false
    else (r[0] == s[0] && IsSubsequence(r[1..], s[1..])) || IsSubsequence(r, s[1..])
  }

  /** A filter only deletes: the kept elements stay in the order they had. */
  lemma {:induction false} FilterIsSubsequence<T(!new)>(p: T -> bool, s: seq<T>)
    ensures IsSubsequence(Filter(p, s), s)
  {
    if |s| > 0 {
      FilterIsSubsequence(p, s[1..]);
      var rest := Filter(p, s[1..]);
      if p(s[0]) {
        assert ([s[0]] + rest)[1..] == rest;
      }
    }
  }

  /** The first element is kept exactly when it passes. */
  lemma FilterCons<T(!new)>(p: T -> bool, x: T, s: seq<T>)
    ensures Filter(p, [x] + s) == (if p(x) then [x] else []) + Filter(p, s)
  {
    assert ([x] + s)[1..] == s;
  }

  /** Filtering distributes over concatenation: the kept elements keep their
      relative order, and nothing from one part moves into the other. */
  lemma {:induction false} FilterAppend<T(!new)>(p: T -> bool, a: seq<T>, b: seq<T>)
    ensures Filter(p, a + b) == Filter(p, a) + Filter(p, b)
    decreases |a|
  {
    if |a| > 0 {
      assert (a + b)[1..] == a[1..] + b;
      FilterAppend(p, a[1..], b);
    } else {
      assert a + b == b;
    }
  }

  /** The last element is kept exactly when it passes. */
  lemma FilterSnoc<T(!new)>(p: T -> bool, s: seq<T>, x: T)
    ensures Filter(p, s + [x]) == Filter(p, s) + (if p(x) then [x] else [])
  {
    FilterAppend(p, s, [x]);
    FilterCons(p, x, []);
    assert [x] + [] == [x];
  }

  /** Two elements that do not both pass may trade places at the end
      without changing what a filter keeps. */
  lemma FilterSwapLast<T(!new)>(p: T -> bool, a: seq<T>, x: T, y: T)
    requires !(p(x) && p(y))
    ensures Filter(p, a + [x] + [y]) == Filter(p, a + [y] + [x])
  {
    var f := Filter(p, a);
    var kx: seq<T> := if p(x) then [x] else [];
    var ky: seq<T> := if p(y) then [y] else [];
    FilterSnoc(p, a + [x], y);
    FilterSnoc(p, a, x);
    FilterSnoc(p, a + [y], x);
    FilterSnoc(p, a, y);
    assert Filter(p, a + [x] + [y]) == f + kx + ky;
    assert Filter(p, a + [y] + [x]) == f + ky + kx;
    SwapEmpty(f, kx, ky);
  }

  /** Two tails of which one is empty may be appended in either order. */
  lemma SwapEmpty<T>(f: seq<T>, a: seq<T>, b: seq<T>)
    requires a == [] || b == []
    ensures f + a + b == f + b + a
  {
    if a == [] {
      assert f + a == f;
    } else {
      assert f + b == f;
    }
  }

  /** Sequences a filter cannot tell apart stay so when one element is
      appended to both. */
  lemma FilterSnocCongruent<T(!new)>(p: T -> bool, a: seq<T>, b: seq<T>, y: T)
    requires Filter(p, a) == Filter(p, b)
    ensures Filter(p, a + [y]) == Filter(p, b + [y])
  {
    FilterSnoc(p, a, y);
    FilterSnoc(p, b, y);
  }

  /** Filtering changes nothing exactly when every element passes. */
  lemma FilterKeepsAll<T(!new)>(p: T -> bool, s: seq<T>)
    ensures Filter(p, s) == s <==> forall i :: 0 <= i < |s| ==> p(s[i])
  {
    if forall i :: 0 <= i < |s| ==> p(s[i]) {
      AllPassKept(p, s);
    } else {
      var i :| 0 <= i < |s| && !p(s[i]);
      assert s[i] !in Filter(p, s);
    }
  }

  lemma {:induction false} AllPassKept<T(!new)>(p: T -> bool, s: seq<T>)
    requires forall i :: 0 <= i < |s| ==> p(s[i])
    ensures Filter(p, s) == s
  {
    if |s| > 0 {
      AllPassKept(p, s[1..]);
      FilterCons(p, s[0], s[1..]);
      assert s == [s[0]] + s[1..];
    }
  }
}
