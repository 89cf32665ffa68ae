/** Sequence facts behind `Array.prototype.filter` and `slice`. */
module Seqs {

  /** `xs` is obtained from `ys` by deleting elements, keeping the order of the rest. */
  predicate IsSubsequence<T(==)>(xs: seq<T>, ys: seq<T>)
    decreases |ys|
  {
    xs == [] ||
    (ys != [] &&
     ((xs[0] == ys[0] && IsSubsequence(xs[1..], ys[1..])) || IsSubsequence(xs, ys[1..])))
  }

  lemma {:induction false} SubsequenceMembers<T>(xs: seq<T>, ys: seq<T>)
    requires IsSubsequence(xs, ys)
    ensures |xs| <= |ys|
    ensures forall x :: x in xs ==> x in ys
    ensures multiset(xs) <= multiset(ys)
    decreases |ys|
  {
    if xs == [] {
    } else if xs[0] == ys[0] && IsSubsequence(xs[1..], ys[1..]) {
      SubsequenceMembers(xs[1..], ys[1..]);
      assert xs == [xs[0]] + xs[1..];
      assert ys == [ys[0]] + ys[1..];
    } else {
      SubsequenceMembers(xs, ys[1..]);
      assert ys == [ys[0]] + ys[1..];
    }
  }

  /** A prefix of a subsequence is a subsequence: `slice(0, k)` keeps the order. */
  lemma {:induction false} PrefixOfSubsequence<T>(xs: seq<T>, ys: seq<T>, k: nat)
    requires IsSubsequence(xs, ys) && k <= |xs|
    ensures IsSubsequence(xs[..k], ys)
    decreases |ys|
  {
    if k == 0 {
    } else if xs[0] == ys[0] && IsSubsequence(xs[1..], ys[1..]) {
      PrefixOfSubsequence(xs[1..], ys[1..], k - 1);
      assert xs[..k][1..] == xs[1..][..k - 1];
    } else {
      PrefixOfSubsequence(xs, ys[1..], k);
    }
  }

  /** Appending to the sequence searched keeps a subsequence a subsequence,
      and appending the same element to both keeps the relation. */
  lemma {:induction false} SubsequenceSnoc<T>(xs: seq<T>, ys: seq<T>, y: T)
    requires IsSubsequence(xs, ys)
    ensures IsSubsequence(xs, ys + [y])
    ensures IsSubsequence(xs + [y], ys + [y])
    decreases |ys|
  {
    if ys == [] {
      assert xs == [];
      assert ([y] + [])[1..] == [];
    } else {
      assert (ys + [y])[1..] == ys[1..] + [y];
      if xs == [] {
        SubsequenceSnoc(xs, ys[1..], y);
        assert ([] + [y]) == xs + [y];
      } else if xs[0] == ys[0] && IsSubsequence(xs[1..], ys[1..]) {
        SubsequenceSnoc(xs[1..], ys[1..], y);
        assert (xs + [y])[1..] == xs[1..] + [y];
      } else {
        SubsequenceSnoc(xs, ys[1..], y);
      }
    }
  }

  predicate NoDuplicates<T(==)>(xs: seq<T>) {
    forall i, j :: 0 <= i < j < |xs| ==> xs[i] != xs[j]
  }

  /** The position of the first occurrence of `x` in `xs`. */
  function FirstIndex<T(==)>(xs: seq<T>, x: T): (i: nat)
    requires x in xs
    ensures i < |xs| && xs[i] == x
    ensures forall j :: 0 <= j < i ==> xs[j] != x
  {
    if xs[0] == x then 0
    else
      var i := FirstIndex(xs[1..], x);
      assert forall j :: 1 <= j < i + 1 ==> xs[j] == xs[1..][j - 1];
      i + 1
  }

  /** Appending an element does not move the first occurrence of one already present. */
  lemma FirstIndexSnoc<T>(xs: seq<T>, y: T, x: T)
    requires x in xs
    ensures FirstIndex(xs + [y], x) == FirstIndex(xs, x)
  {
    var i, k := FirstIndex(xs, x), FirstIndex(xs + [y], x);
    assert (xs + [y])[i] == x;
    assert k < |xs| ==> xs[k] == (xs + [y])[k];
  }

  /** An element appended to a sequence without it first occurs at the end. */
  lemma FirstIndexLast<T>(xs: seq<T>, x: T)
    requires x !in xs
    ensures FirstIndex(xs + [x], x) == |xs|
  {
  }

  /** The elements of `xs` that satisfy `f`, in their original order. */
  function Filter<T>(f: T -> bool, xs: seq<T>): (r: seq<T>)
    ensures |r| <= |xs|
    ensures IsSubsequence(r, xs)
    ensures forall x :: x in r ==> x in xs && f(x)
    ensures forall x :: x in xs && f(x) ==> x in r
    decreases |xs|
  {
    if xs == [] then []
    else
      var rest := Filter(f, xs[1..]);
      assert forall x :: x in xs ==> x == xs[0] || x in xs[1..];
      if f(xs[0]) then
        assert ([xs[0]] + rest)[1..] == rest;
        [xs[0]] + rest
      else rest
  }

  /** The part of `[x]` that the filter keeps. */
  function Kept<T>(f: T -> bool, x: T): seq<T> {
    if f(x) then [x] else []
  }

  lemma FilterOfOne<T>(f: T -> bool, x: T)
    ensures Filter(f, [x]) == Kept(f, x)
  {
    assert [x][1..] == [];
  }

  lemma FilterOfTwo<T>(f: T -> bool, x: T, y: T)
    ensures Filter(f, [x, y]) == Kept(f, x) + Kept(f, y)
  {
    assert [x, y] == [x] + [y];
    FilterCons(f, x, [y]);
    FilterOfOne(f, y);
  }

  lemma FilterOfFour<T>(f: T -> bool, xs: seq<T>)
    requires |xs| == 4
    ensures Filter(f, xs) == (Kept(f, xs[0]) + Kept(f, xs[1])) + (Kept(f, xs[2]) + Kept(f, xs[3]))
  {
    var front, back := [xs[0], xs[1]], [xs[2], xs[3]];
    assert xs == front + back;
    FilterAppend(f, front, back);
    FilterOfTwo(f, xs[0], xs[1]);
    FilterOfTwo(f, xs[2], xs[3]);
  }

  /** Over four elements of which the first and third fail the test, followed
      by elements that all pass, filtering drops exactly those two. */
  lemma FilterDropsFirstAndThird<T>(f: T -> bool, front: seq<T>, back: seq<T>)
    requires |front| == 4 && !f(front[0]) && f(front[1]) && !f(front[2]) && f(front[3])
    requires forall x :: x in back ==> f(x)
    ensures Filter(f, front + back) == [front[1], front[3]] + back
  {
    var a, b := front[1], front[3];
    assert Filter(f, front) == [a, b] by {
      FilterOfFour(f, front);
      assert Kept(f, front[0]) == [] && Kept(f, a) == [a];
      assert Kept(f, front[2]) == [] && Kept(f, b) == [b];
    }
    FilterAppend(f, front, back);
    FilterKeepsAll(f, back);
  }

  lemma FilterOfThree<T>(f: T -> bool, xs: seq<T>)
    requires |xs| == 3
    ensures Filter(f, xs) == Kept(f, xs[0]) + Kept(f, xs[1]) + Kept(f, xs[2])
  {
    var x0, x1, x2 := xs[0], xs[1], xs[2];
    assert xs == [x0] + [x1, x2];
    FilterCons(f, x0, [x1, x2]);
    FilterOfTwo(f, x1, x2);
    var a, b, c := Kept(f, x0), Kept(f, x1), Kept(f, x2);
    assert Filter(f, xs) == a + (b + c);
  }

  /** Filtering six elements, written out element by element in two halves. */
  lemma FilterBySix<T>(f: T -> bool, xs: seq<T>)
    requires |xs| == 6
    ensures Filter(f, xs) == (Kept(f, xs[0]) + Kept(f, xs[1]) + Kept(f, xs[2])) +
                             (Kept(f, xs[3]) + Kept(f, xs[4]) + Kept(f, xs[5]))
  {
    var front, back := xs[..3], xs[3..];
    assert xs == front + back;
    FilterAppend(f, front, back);
    FilterOfThree(f, front);
    FilterOfThree(f, back);
    assert front[0] == xs[0] && front[1] == xs[1] && front[2] == xs[2];
    assert back[0] == xs[3] && back[1] == xs[4] && back[2] == xs[5];
  }

  /** Over six elements of which the third and sixth fail the test, filtering keeps the
      other four in order. */
  lemma FilterOfSix<T>(f: T -> bool, ps: seq<T>)
    requires |ps| == 6
    requires f(ps[0]) && f(ps[1]) && !f(ps[2]) && f(ps[3]) && f(ps[4]) && !f(ps[5])
    ensures Filter(f, ps) == [ps[0], ps[1], ps[3], ps[4]]
  {
    FilterBySix(f, ps);
  }

  /** Filtering depends only on how the predicate treats the elements present. */
  lemma {:induction false} FilterCongruent<T>(f: T -> bool, g: T -> bool, xs: seq<T>)
    requires forall x :: x in xs ==> f(x) == g(x)
    ensures Filter(f, xs) == Filter(g, xs)
    decreases |xs|
  {
    if xs != [] {
      assert forall x :: x in xs[1..] ==> x in xs;
      FilterCongruent(f, g, xs[1..]);
    }
  }

  /** A predicate that holds throughout keeps everything. */
  lemma {:induction false} FilterKeepsAll<T>(f: T -> bool, xs: seq<T>)
    requires forall x :: x in xs ==> f(x)
    ensures Filter(f, xs) == xs
    decreases |xs|
  {
    if xs != [] {
      assert forall x :: x in xs[1..] ==> x in xs;
      FilterKeepsAll(f, xs[1..]);
      assert xs == [xs[0]] + xs[1..];
    }
  }

  /** Filtering one element in front of a sequence. */
  lemma FilterCons<T>(f: T -> bool, x: T, xs: seq<T>)
    ensures Filter(f, [x] + xs) == Kept(f, x) + Filter(f, xs)
  {
    assert ([x] + xs)[1..] == xs;
  }

  /** Filtering distributes over concatenation. */
  lemma {:induction false} FilterAppend<T>(f: T -> bool, a: seq<T>, b: seq<T>)
    ensures Filter(f, a + b) == Filter(f, a) + Filter(f, b)
    decreases |a|
  {
    if a != [] {
      assert a + b == [a[0]] + (a[1..] + b);
      assert a == [a[0]] + a[1..];
      FilterCons(f, a[0], a[1..] + b);
      FilterCons(f, a[0], a[1..]);
      FilterAppend(f, a[1..], b);
      var k, p, q := Kept(f, a[0]), Filter(f, a[1..]), Filter(f, b);
      assert Filter(f, a + b) == k + (p + q);
      assert Filter(f, a) == k + p;
    } else {
      assert a + b == b;
    }
  }

  /** The first `n` elements, or all of them when there are fewer: `slice(0, n)`. */
  function Take<T>(xs: seq<T>, n: nat): (r: seq<T>)
    ensures |r| <= n && |r| <= |xs|
    ensures |r| == n || r == xs
    ensures r == xs[..|r|]
  {
    if |xs| <= n then xs else xs[..n]
  }
}
