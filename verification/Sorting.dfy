/** Stable sorting by a numeric key, and when the result does not depend on the order of the input. */
module Sorting {

  function Insert<T>(x: T, xs: seq<T>, key: T -> nat): seq<T>
  {
    if xs == [] || key(x) <= key(xs[0]) then [x] + xs else [xs[0]] + Insert(x, xs[1..], key)
  }

  function SortBy<T>(xs: seq<T>, key: T -> nat): (r: seq<T>)
    ensures |r| == |xs|
  {
    if xs == [] then []
    else
      InsertLength(xs[0], SortBy(xs[1..], key), key);
      Insert(xs[0], SortBy(xs[1..], key), key)
  }

  lemma {:induction false} InsertLength<T>(x: T, xs: seq<T>, key: T -> nat)
    ensures |Insert(x, xs, key)| == |xs| + 1
  {
    if xs != [] && key(x) > key(xs[0]) {
      InsertLength(x, xs[1..], key);
    }
  }

  ghost predicate IsSorted<T(!new)>(xs: seq<T>, key: T -> nat) {
    forall i, j :: 0 <= i < j < |xs| ==> key(xs[i]) <= key(xs[j])
  }

  /** Members with one key are one value. */
  ghost predicate KeysTell<T(!new)>(xs: seq<T>, key: T -> nat) {
    forall x, y :: x in xs && y in xs && key(x) == key(y) ==> x == y
  }

  lemma {:induction false} InsertPermutes<T>(x: T, xs: seq<T>, key: T -> nat)
    ensures multiset(Insert(x, xs, key)) == multiset{x} + multiset(xs)
  {
    if xs != [] && key(x) > key(xs[0]) {
      InsertPermutes(x, xs[1..], key);
      assert xs == [xs[0]] + xs[1..];
    }
  }

  lemma {:induction false} InsertSorted<T(!new)>(x: T, xs: seq<T>, key: T -> nat)
    requires IsSorted(xs, key)
    ensures IsSorted(Insert(x, xs, key), key)
  {
    if xs != [] && key(x) > key(xs[0]) {
      var rest := Insert(x, xs[1..], key);
      InsertSorted(x, xs[1..], key);
      InsertPermutes(x, xs[1..], key);
      forall y | y in rest
        ensures key(xs[0]) <= key(y)
      {
        assert y in multiset(rest);
        assert y == x || y in multiset(xs[1..]);
      }
    }
  }

  lemma {:induction false} SortPermutes<T>(xs: seq<T>, key: T -> nat)
    ensures multiset(SortBy(xs, key)) == multiset(xs)
  {
    if xs != [] {
      SortPermutes(xs[1..], key);
      InsertPermutes(xs[0], SortBy(xs[1..], key), key);
      assert xs == [xs[0]] + xs[1..];
    }
  }

  lemma {:induction false} SortSorts<T(!new)>(xs: seq<T>, key: T -> nat)
    ensures IsSorted(SortBy(xs, key), key)
  {
    if xs != [] {
      SortSorts(xs[1..], key);
      InsertSorted(xs[0], SortBy(xs[1..], key), key);
    }
  }

  lemma SameLeast<T(!new)>(a: seq<T>, b: seq<T>, key: T -> nat)
    requires a != [] && b != [] && multiset(a) == multiset(b)
    requires IsSorted(a, key) && IsSorted(b, key) && KeysTell(a, key)
    ensures a[0] == b[0]
  {
    assert a[0] in multiset(b);
    assert b[0] in multiset(a);
    var i, j :| 0 <= i < |b| && b[i] == a[0] && 0 <= j < |a| && a[j] == b[0];
    assert key(b[0]) <= key(b[i]) && key(a[0]) <= key(a[j]);
  }

  lemma TailsMatch<T>(a: seq<T>, b: seq<T>)
    requires a != [] && b != [] && multiset(a) == multiset(b) && a[0] == b[0]
    ensures multiset(a[1..]) == multiset(b[1..])
  {
    assert a == [a[0]] + a[1..] && b == [b[0]] + b[1..];
    assert multiset(a[1..]) == multiset(a) - multiset{a[0]};
    assert multiset(b[1..]) == multiset(b) - multiset{b[0]};
  }

  lemma TailSorted<T(!new)>(a: seq<T>, key: T -> nat)
    requires a != [] && IsSorted(a, key) && KeysTell(a, key)
    ensures IsSorted(a[1..], key) && KeysTell(a[1..], key)
  {
    forall i, j | 0 <= i < j < |a[1..]|
      ensures key(a[1..][i]) <= key(a[1..][j])
    {
      assert key(a[i + 1]) <= key(a[j + 1]);
    }
  }

  lemma {:induction false} SortedUnique<T(!new)>(a: seq<T>, b: seq<T>, key: T -> nat)
    requires IsSorted(a, key) && IsSorted(b, key) && multiset(a) == multiset(b) && KeysTell(a, key)
    ensures a == b
    decreases |a|
  {
    assert |multiset(a)| == |a| && |multiset(b)| == |b|;
    if a != [] {
      SameLeast(a, b, key);
      TailsMatch(a, b);
      TailSorted(a, key);
      forall i, j | 0 <= i < j < |b[1..]|
        ensures key(b[1..][i]) <= key(b[1..][j])
      {
        assert key(b[i + 1]) <= key(b[j + 1]);
      }
      hide IsSorted, KeysTell;
      SortedUnique(a[1..], b[1..], key);
      assert a == [a[0]] + a[1..] && b == [b[0]] + b[1..];
    }
  }

  /** Sorting forgets the order of the input when equal keys mean equal members. */
  lemma {:induction false} SortForgetsOrder<T(!new)>(a: seq<T>, b: seq<T>, key: T -> nat)
    requires multiset(a) == multiset(b) && KeysTell(a, key)
    ensures SortBy(a, key) == SortBy(b, key)
  {
    SortPermutes(a, key);
    SortPermutes(b, key);
    SortSorts(a, key);
    SortSorts(b, key);
    forall x | x in SortBy(a, key)
      ensures x in a
    {
      assert x in multiset(SortBy(a, key));
    }
    SortedUnique(SortBy(a, key), SortBy(b, key), key);
  }

  // ----- images -----

  function Images<T, U>(xs: seq<T>, f: T -> U): (ys: seq<U>)
    ensures |ys| == |xs| && forall i :: 0 <= i < |xs| ==> ys[i] == f(xs[i])
  {
    seq(|xs|, i requires 0 <= i < |xs| => f(xs[i]))
  }

  lemma ImagesConcat<T, U>(a: seq<T>, b: seq<T>, f: T -> U)
    ensures Images(a + b, f) == Images(a, f) + Images(b, f)
  {}

  lemma ImageMoved<T, U>(front: seq<T>, x: T, back: seq<T>, f: T -> U)
    ensures multiset(Images(front + [x] + back, f)) == multiset([f(x)]) + multiset(Images(front + back, f))
  {
    ImagesConcat(front, back, f);
    ImagesConcat(front, [x] + back, f);
    ImagesConcat([x], back, f);
    assert Images([x], f) == [f(x)] && front + [x] + back == front + ([x] + back);
    hide Images;
  }

  lemma MemberMoved<T>(front: seq<T>, x: T, back: seq<T>)
    ensures multiset(front + [x] + back) == multiset([x] + (front + back))
  {}

  /** Where the first member of one arrangement stands in another. */
  lemma FirstElsewhere<T>(a: seq<T>, b: seq<T>) returns (front: seq<T>, back: seq<T>)
    requires a != [] && multiset(a) == multiset(b)
    ensures b == front + [a[0]] + back && multiset(a[1..]) == multiset(front + back)
  {
    assert a[0] in multiset(b);
    var i :| 0 <= i < |b| && b[i] == a[0];
    front, back := b[..i], b[i + 1..];
    var moved := [a[0]] + (front + back);
    assert b == front + [a[0]] + back;
    MemberMoved(front, a[0], back);
    TailsMatch(a, moved);
    assert moved[1..] == front + back;
  }

  /** The same members have the same images. */
  lemma {:induction false} ImagesPermute<T, U>(a: seq<T>, b: seq<T>, f: T -> U)
    requires multiset(a) == multiset(b)
    ensures multiset(Images(a, f)) == multiset(Images(b, f))
    decreases |a|
  {
    hide Images;
    if a == [] {
      assert |multiset(b)| == |b|;
      assert b == [];
    } else {
      var front, back := FirstElsewhere(a, b);
      ImagesPermute(a[1..], front + back, f);
      ImageMoved([], a[0], a[1..], f);
      ImageMoved(front, a[0], back, f);
      assert a == [] + [a[0]] + a[1..] && [] + a[1..] == a[1..];
    }
  }
}
