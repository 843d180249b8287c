/** Positional notation, most significant digit first, in any base.
    Every codec below that packs bits is, read as arithmetic, a change of base. */
module Radix {

  function Pow(b: nat, n: nat): nat
  {
    if n == 0 then 1 else b * Pow(b, n - 1)
  }

  /** The number that the digits `ds` write in base `b`. */
  function Value(ds: seq<nat>, b: nat): nat
  {
    if ds == [] then 0 else Value(ds[..|ds| - 1], b) * b + ds[|ds| - 1]
  }

  predicate AreDigits(ds: seq<nat>, b: nat) {
    forall i :: 0 <= i < |ds| ==> ds[i] < b
  }

  /** The last `n` base-`b` digits of `v`. */
  function Digits(v: nat, b: nat, n: nat): (ds: seq<nat>)
    requires b >= 2
    ensures |ds| == n && AreDigits(ds, b)
  {
    if n == 0 then [] else Digits(v / b, b, n - 1) + [v % b]
  }

  lemma {:induction false} PowPositive(b: nat, n: nat)
    requires b >= 1
    ensures Pow(b, n) >= 1
  {
    if n > 0 {
      PowPositive(b, n - 1);
      MulPositive(b, Pow(b, n - 1));
    }
  }

  lemma MulPositive(x: nat, y: nat)
    requires x >= 1 && y >= 1
    ensures x * y >= 1
  {}

  lemma {:induction false} PowAdd(b: nat, m: nat, n: nat)
    ensures Pow(b, m + n) == Pow(b, m) * Pow(b, n)
  {
    if m > 0 {
      PowAdd(b, m - 1, n);
      assert Pow(b, m + n) == b * Pow(b, m - 1 + n);
      MulAssociative(b, Pow(b, m - 1), Pow(b, n));
    }
  }

  lemma MulNat(x: nat, y: nat)
    ensures x * y >= 0
  {}

  lemma MulAssociative(x: int, y: int, z: int)
    ensures x * (y * z) == (x * y) * z
  {}

  lemma MulMonotone(x: int, y: int, k: int)
    requires x <= y && k >= 0
    ensures x * k <= y * k
  {}

  /** Euclidean division is unique. */
  lemma DivModUnique(q: int, b: int, r: int)
    requires 0 <= r < b
    ensures (q * b + r) / b == q && (q * b + r) % b == r
  {
    var x := q * b + r;
    var q', r' := x / b, x % b;
    assert x == q' * b + r' && 0 <= r' < b;
    if q' > q {
      MulMonotone(q + 1, q', b);
      assert false;
    } else if q' < q {
      MulMonotone(q' + 1, q, b);
      assert false;
    }
  }

  lemma DivModStep(v: nat, b: nat)
    requires b >= 2
    ensures v / b * b + v % b == v && v / b <= v
  {
    assert v / b >= 0;
    MulMonotone(1, b, v / b);
  }

  lemma AppendBound(v: nat, d: nat, b: nat, p: nat)
    requires v < p && d < b
    ensures v * b + d < b * p
  {
    MulMonotone(v + 1, p, b);
    assert (v + 1) * b == v * b + b;
  }

  lemma {:induction false} ValueBound(ds: seq<nat>, b: nat)
    requires AreDigits(ds, b)
    ensures Value(ds, b) < Pow(b, |ds|)
  {
    if ds != [] {
      var init, last := ds[..|ds| - 1], ds[|ds| - 1];
      assert AreDigits(init, b) && last < b;
      ValueBound(init, b);
      AppendBound(Value(init, b), last, b, Pow(b, |init|));
    }
  }

  lemma Distribute(x: int, p: int, y: int, b: int)
    ensures (x * p + y) * b == x * (b * p) + y * b
  {
    assert (x * p + y) * b == x * p * b + y * b;
    MulAssociative(x, p, b);
    assert p * b == b * p;
  }

  lemma {:induction false} ValueConcat(xs: seq<nat>, ys: seq<nat>, b: nat)
    ensures Value(xs + ys, b) == Value(xs, b) * Pow(b, |ys|) + Value(ys, b)
  {
    if ys == [] {
      assert xs + ys == xs;
    } else {
      var init := ys[..|ys| - 1];
      assert (xs + ys)[..|xs + ys| - 1] == xs + init;
      ValueConcat(xs, init, b);
      Distribute(Value(xs, b), Pow(b, |init|), Value(init, b), b);
    }
  }

  /** Writing a number and reading it back. */
  lemma {:induction false} ValueOfDigits(v: nat, b: nat, n: nat)
    requires b >= 2
    ensures Value(Digits(v, b, n), b) <= v
    ensures v < Pow(b, n) ==> Value(Digits(v, b, n), b) == v
  {
    if n > 0 {
      DivModStep(v, b);
      var ds := Digits(v, b, n);
      assert ds[..|ds| - 1] == Digits(v / b, b, n - 1);
      ValueOfDigits(v / b, b, n - 1);
      MulMonotone(Value(Digits(v / b, b, n - 1), b), v / b, b);
      if v < Pow(b, n) && v / b >= Pow(b, n - 1) {
        MulMonotone(Pow(b, n - 1), v / b, b);
        assert false;
      }
    }
  }

  /** Reading digits and writing them back. */
  lemma {:induction false} DigitsOfValue(ds: seq<nat>, b: nat)
    requires b >= 2 && AreDigits(ds, b)
    ensures Digits(Value(ds, b), b, |ds|) == ds
  {
    if ds != [] {
      var init, last := ds[..|ds| - 1], ds[|ds| - 1];
      assert AreDigits(init, b) && last < b;
      DivModUnique(Value(init, b), b, last);
      DigitsOfValue(init, b);
    }
  }

  /** A number has one digit string of each length. */
  lemma {:induction false} ValueInjective(xs: seq<nat>, ys: seq<nat>, b: nat)
    requires b >= 2 && AreDigits(xs, b) && AreDigits(ys, b)
    requires |xs| == |ys| && Value(xs, b) == Value(ys, b)
    ensures xs == ys
  {
    DigitsOfValue(xs, b);
    DigitsOfValue(ys, b);
  }
}
