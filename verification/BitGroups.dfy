/** Regrouping a bit string: symbols of `from` bits become symbols of `to` bits. */
module BitGroups {
  import opened Wrappers
  import opened Radix

  // ----- powers of two -----

  lemma {:induction false} PowPow(a: nat, m: nat)
    ensures Pow(Pow(2, a), m) == Pow(2, a * m)
  {
    if m == 0 {
      assert a * m == 0;
    } else {
      PowPow(a, m - 1);
      assert a * m == a + a * (m - 1);
      PowAdd(2, a, a * (m - 1));
    }
  }

  lemma {:induction false} PowAtLeastTwo(a: nat)
    requires a > 0
    ensures Pow(2, a) >= 2
  {
    PowPositive(2, a - 1);
  }

  /** Dividing by 2^m and then by 2^n is dividing by 2^(m+n). */
  lemma DivPowAdd(v: nat, m: nat, n: nat)
    ensures Pow(2, m) > 0 && Pow(2, n) > 0 && Pow(2, m + n) > 0
    ensures v / Pow(2, m) / Pow(2, n) == v / Pow(2, m + n)
  {
    PowPositive(2, m);
    PowPositive(2, n);
    PowAdd(2, m, n);
    PowPositive(2, m + n);
    DivDiv(v, Pow(2, m), Pow(2, n));
  }

  lemma DivDiv(v: nat, x: nat, y: nat)
    requires x > 0 && y > 0
    ensures x * y > 0 && v / x / y == v / (x * y)
  {
    MulPositive(x, y);
    var q := v / x;
    var p, r := q / y, q % y * x + v % x;
    assert q == p * y + q % y;
    assert v == q * x + v % x;
    calc {
      v;
      (p * y + q % y) * x + v % x;
      p * y * x + q % y * x + v % x;
      { MulAssociative(p, y, x); }
      p * (x * y) + r;
    }
    MulMonotone(q % y, y - 1, x);
    assert (y - 1) * x == x * y - x;
    assert 0 <= q % y * x;
    DivModUnique(p, x * y, r);
  }

  /** A new symbol below the point where the number is cut does not change the part above. */
  lemma DivAfterAppend(acc: nat, bits: nat, from: nat, b: nat)
    requires b < Pow(2, from)
    ensures Pow(2, bits) > 0 && Pow(2, bits + from) > 0
    ensures (acc * Pow(2, from) + b) / Pow(2, bits + from) == acc / Pow(2, bits)
  {
    PowPositive(2, bits);
    DivModUnique(acc, Pow(2, from), b);
    DivPowAdd(acc * Pow(2, from) + b, from, bits);
    assert from + bits == bits + from;
  }

  /** v << k and v >> k. */
  function Shl(v: nat, k: nat): nat
  {
    MulNat(v, Pow(2, k));
    v * Pow(2, k)
  }

  function Shr(v: nat, k: nat): nat
  {
    PowPositive(2, k);
    v / Pow(2, k)
  }

  // ----- specification -----

  /** Bits that do not fill a last symbol. */
  function Leftover(n: nat, from: nat, to: nat): nat
    requires to > 0
  {
    n * from % to
  }

  /** The whole `to`-bit symbols at the front of the bit string that `data` spells. */
  function Whole(data: seq<nat>, from: nat, to: nat): (out: seq<nat>)
    requires from > 0 && to > 0
    ensures |out| == |data| * from / to
  {
    PowAtLeastTwo(to);
    Digits(Shr(Value(data, Pow(2, from)), Leftover(|data|, from, to)), Pow(2, to), |data| * from / to)
  }

  /** The leftover bits, shifted up to the top of a symbol. */
  function Tail(data: seq<nat>, from: nat, to: nat): nat
    requires from > 0 && to > 0
  {
    PowPositive(2, to);
    Shl(Value(data, Pow(2, from)), to - Leftover(|data|, from, to)) % Pow(2, to)
  }

  function Converted(data: seq<nat>, from: nat, to: nat, pad: bool): Result<seq<nat>>
    requires from > 0 && to > 0
  {
    var rest := Leftover(|data|, from, to);
    if pad then
      Ok(Whole(data, from, to) + if rest > 0 then [Tail(data, from, to)] else [])
    else if rest >= from || Tail(data, from, to) != 0 then Err
    else Ok(Whole(data, from, to))
  }

  // ----- the loop -----

  /** `out` holds the symbols written so far, and `bits` low bits of `acc` wait. */
  ghost predicate Progress(out: seq<nat>, acc: nat, bits: nat, to: nat, total: nat) {
    && Pow(2, to) >= 2
    && |out| * to + bits == total
    && out == Digits(Shr(acc, bits), Pow(2, to), |out|)
  }

  /** Reading a symbol: more bits in hand, the same symbols written. */
  lemma {:induction false} ReadSymbol(acc: nat, bits: nat, b: nat, from: nat, to: nat, out: seq<nat>, i: nat)
    requires b < Pow(2, from) && Progress(out, acc, bits, to, i * from)
    ensures Progress(out, Shl(acc, from) + b, bits + from, to, (i + 1) * from)
  {
    hide Digits, Pow;
    DivAfterAppend(acc, bits, from, b);
    assert (i + 1) * from == i * from + from;
  }

  /** Writing a symbol: the next digit of the same number. */
  lemma {:induction false} WriteSymbol(acc: nat, bits: nat, to: nat, out: seq<nat>, total: nat)
    requires bits >= to && Progress(out, acc, bits, to, total)
    ensures Pow(2, to) > 0
    ensures Progress(out + [Shr(acc, bits - to) % Pow(2, to)], acc, bits - to, to, total)
  {
    hide Digits, Pow;
    DivPowAdd(acc, bits - to, to);
    assert (|out| + 1) * to == |out| * to + to;
    DigitsSplit(Shr(acc, bits - to), Pow(2, to), |out|);
  }

  lemma {:induction false} DigitsSplit(v: nat, b: nat, n: nat)
    requires b >= 2
    ensures Digits(v, b, n + 1) == Digits(v / b, b, n) + [v % b]
  {}

  lemma ProgressStart(to: nat)
    requires to > 0
    ensures Progress([], 0, 0, to, 0)
  {
    PowAtLeastTwo(to);
  }

  lemma {:induction false} ProgressEnd(out: seq<nat>, data: seq<nat>, from: nat, to: nat, bits: nat)
    requires from > 0 && bits < to && Progress(out, Value(data, Pow(2, from)), bits, to, |data| * from)
    ensures out == Whole(data, from, to) && bits == Leftover(|data|, from, to)
  {
    hide Digits, Pow, Value;
    DivModUnique(|out|, to, bits);
  }

  lemma {:induction false} ValuePrefix(data: seq<nat>, i: nat, b: nat)
    requires i < |data|
    ensures Value(data[..i + 1], b) == Value(data[..i], b) * b + data[i]
  {
    assert data[..i + 1][..i] == data[..i];
  }

  /** The accumulator loop. The accumulator keeps every bit it has read. */
  method Regroup(data: seq<nat>, from: nat, to: nat) returns (out: seq<nat>, acc: nat, bits: nat)
    requires from > 0 && to > 0 && AreDigits(data, Pow(2, from))
    ensures out == Whole(data, from, to)
    ensures acc == Value(data, Pow(2, from)) && bits == Leftover(|data|, from, to)
  {
    acc, bits, out := 0, 0, [];
    ProgressStart(to);
    assert data[..0] == [] && Value([], Pow(2, from)) == 0;
    hide Pow, Value, Progress, Shr;
    for i := 0 to |data|
      invariant acc == Value(data[..i], Pow(2, from))
      invariant Progress(out, acc, bits, to, i * from) && bits < to
    {
      ValuePrefix(data, i, Pow(2, from));
      ReadSymbol(acc, bits, data[i], from, to, out, i);
      acc := Shl(acc, from) + data[i];
      bits := bits + from;
      while bits >= to
        invariant Progress(out, acc, bits, to, (i + 1) * from)
      {
        WriteSymbol(acc, bits, to, out, (i + 1) * from);
        bits := bits - to;
        out := out + [Shr(acc, bits) % Pow(2, to)];
      }
    }
    assert data[..|data|] == data;
    ProgressEnd(out, data, from, to, bits);
  }

  method ConvertBits(data: seq<nat>, from: nat, to: nat, pad: bool) returns (r: Result<seq<nat>>)
    requires from > 0 && to > 0 && AreDigits(data, Pow(2, from))
    ensures r == Converted(data, from, to, pad)
  {
    hide Whole;
    var out, acc, bits := Regroup(data, from, to);
    PowPositive(2, to);
    if pad {
      if bits > 0 {
        out := out + [Shl(acc, to - bits) % Pow(2, to)];
        return Ok(out);
      }
      assert out + [] == out;
      return Ok(out);
    } else if bits >= from || Shl(acc, to - bits) % Pow(2, to) != 0 {
      return Err;
    }
    return Ok(out);
  }

  // ----- eight bits to five and back -----

  /** Five-bit symbols of a byte string, the last one padded with zero bits. */
  function ToFives(data: seq<nat>): seq<nat>
  {
    Converted(data, 8, 5, true).value
  }

  /** Whole bytes of a string of five-bit symbols; the bits left over are dropped. */
  function ToEights(data: seq<nat>): seq<nat>
  {
    Whole(data, 5, 8)
  }

  lemma PowFacts()
    ensures Pow(2, 8) == 256 && Pow(2, 5) == 32
    ensures Pow(2, 0) == 1 && Pow(2, 1) == 2 && Pow(2, 2) == 4 && Pow(2, 3) == 8 && Pow(2, 4) == 16
  {
    assert Pow(2, 4) == 16;
    assert Pow(2, 8) == 2 * (2 * (2 * (2 * Pow(2, 4))));
  }

  /** Cutting `rest` bits off a number is shifting it to a multiple of five bits and cutting five. */
  lemma ShiftCut(v: nat, rest: nat, pad: nat)
    requires rest + pad == 5
    ensures Shl(v, pad) / 32 == Shr(v, rest)
  {
    PowFacts();
    PowPositive(2, rest);
    PowPositive(2, pad);
    PowAdd(2, pad, rest);
    DivModUnique(v, Pow(2, pad), 0);
    DivDiv(Shl(v, pad), Pow(2, pad), Pow(2, rest));
  }

  lemma NoShift(v: nat)
    ensures Shl(v, 0) == v && Shr(v, 0) == v
  {
    assert Pow(2, 0) == 1;
    assert v * 1 == v && v / 1 == v;
  }

  /** The number of five-bit symbols for `n` bytes, and the zero bits in the last one. */
  function FiveCount(n: nat): nat { (8 * n + 4) / 5 }

  function FivePad(n: nat): (pad: nat)
    ensures pad < 5 && 5 * FiveCount(n) == 8 * n + pad
  {
    5 * FiveCount(n) - 8 * n
  }

  lemma {:induction false} WholeFives(data: seq<nat>)
    ensures Whole(data, 8, 5) == Digits(Shr(Value(data, 256), |data| * 8 % 5), 32, |data| * 8 / 5)
    ensures Tail(data, 8, 5) == Shl(Value(data, 256), 5 - |data| * 8 % 5) % 32
  {
    PowFacts();
    hide Digits, Pow, Shl, Shr, Value;
  }

  lemma FivesParts(data: seq<nat>)
    ensures ToFives(data) == Whole(data, 8, 5) + if |data| * 8 % 5 > 0 then [Tail(data, 8, 5)] else []
  {
    hide Whole, Tail;
  }

  /** The padded five-bit form of an `n`-byte number. */
  function FiveDigits(v: nat, n: nat): seq<nat>
  {
    Digits(Shl(v, FivePad(n)), 32, FiveCount(n))
  }

  lemma {:induction false} FiveDigitsAligned(v: nat, n: nat)
    requires n * 8 % 5 == 0
    ensures FiveDigits(v, n) == Digits(Shr(v, 0), 32, n * 8 / 5) + []
  {
    hide Digits, Shl, Shr;
    NoShift(v);
    assert FiveCount(n) == n * 8 / 5 && FivePad(n) == 0;
  }

  lemma {:induction false} FiveDigitsPadded(v: nat, n: nat, rest: nat)
    requires rest == n * 8 % 5 && rest > 0
    ensures FiveDigits(v, n) == Digits(Shr(v, rest), 32, n * 8 / 5) + [Shl(v, 5 - rest) % 32]
  {
    hide Digits, Shl, Shr;
    assert n * 8 / 5 * 5 + rest == 8 * n;
    assert FiveCount(n) == n * 8 / 5 + 1 && FivePad(n) == 5 - rest;
    ShiftCut(v, rest, 5 - rest);
    DigitsSplit(Shl(v, 5 - rest), 32, n * 8 / 5);
  }

  /** The five-bit form is one number, the byte string shifted up by the padding. */
  lemma {:induction false} FivesAreDigits(data: seq<nat>)
    ensures ToFives(data) == FiveDigits(Value(data, 256), |data|)
  {
    hide *;
    FivesParts(data);
    WholeFives(data);
    var n, v, rest := |data|, Value(data, 256), |data| * 8 % 5;
    if rest == 0 {
      FiveDigitsAligned(v, n);
    } else {
      FiveDigitsPadded(v, n, rest);
    }
  }

  lemma ScaleBound(v: nat, a: nat, p: nat)
    requires v < a && p > 0
    ensures v * p < a * p
  {
    MulMonotone(v + 1, a, p);
    assert (v + 1) * p == v * p + p;
  }

  lemma DivBound(v: nat, a: nat, p: nat)
    requires p > 0 && v < a * p
    ensures v / p < a
  {
    var q := v / p;
    assert q * p <= v;
    if q >= a {
      MulMonotone(a, q, p);
      assert false;
    }
  }

  lemma {:induction false} SplitPower(m: nat, n: nat, rest: nat)
    requires 5 * m == 8 * n + rest
    ensures Pow(32, m) == Pow(256, n) * Pow(2, rest) && Pow(2, rest) > 0
  {
    PowFacts();
    PowPow(8, n);
    PowPow(5, m);
    PowAdd(2, 8 * n, rest);
    PowPositive(2, rest);
  }

  /** As a number, the padded five-bit form is the byte string shifted up by the padding. */
  lemma {:induction false} FivesValue(data: seq<nat>)
    requires AreDigits(data, 256)
    ensures |ToFives(data)| == FiveCount(|data|) && AreDigits(ToFives(data), 32)
    ensures Value(ToFives(data), 32) == Shl(Value(data, 256), FivePad(|data|))
  {
    hide ToFives, Pow, Value;
    var n, v := |data|, Value(data, 256);
    var m, pad := FiveCount(n), FivePad(n);
    FivesAreDigits(data);
    ValueBound(data, 256);
    SplitPower(m, n, pad);
    ScaleBound(v, Pow(256, n), Pow(2, pad));
    ValueOfDigits(Shl(v, pad), 32, m);
  }

  /** What `m` five-bit symbols give: as many bytes as fit, cut off the top of their value. */
  lemma {:induction false} EightsValue(fives: seq<nat>)
    requires AreDigits(fives, 32)
    ensures var rest := |fives| * 5 % 8;
            && |ToEights(fives)| == |fives| * 5 / 8 && AreDigits(ToEights(fives), 256)
            && Value(ToEights(fives), 256) == Shr(Value(fives, 32), rest)
  {
    PowFacts();
    hide Pow, Value;
    var m, v := |fives|, Value(fives, 32);
    var rest, n := m * 5 % 8, m * 5 / 8;
    assert 5 * m == 8 * n + rest;
    SplitPower(m, n, rest);
    ValueBound(fives, 32);
    DivBound(v, Pow(256, n), Pow(2, rest));
    ValueOfDigits(Shr(v, rest), 256, n);
  }

  lemma {:induction false} ShiftBack(v: nat, k: nat)
    ensures Shr(Shl(v, k), k) == v
    ensures Pow(2, k) > 0 && (Shl(Shr(v, k), k) == v <==> v % Pow(2, k) == 0)
  {
    var p := Pow(2, k);
    PowPositive(2, k);
    DivModUnique(v, p, 0);
    assert v == v / p * p + v % p;
  }

  /** Bytes survive the trip through five-bit symbols. */
  lemma EightsOfFives(data: seq<nat>)
    requires AreDigits(data, 256)
    ensures ToEights(ToFives(data)) == data
  {
    hide ToFives, ToEights, Value, Shl, Shr;
    var n := |data|;
    FivesValue(data);
    EightsValue(ToFives(data));
    assert FiveCount(n) * 5 == n * 8 + FivePad(n);
    DivModUnique(n, 8, FivePad(n));
    ShiftBack(Value(data, 256), FivePad(n));
    ValueInjective(ToEights(ToFives(data)), data, 256);
  }

  /** The leftover bits of a five-bit string are the zero padding of some byte string. */
  predicate CleanPadding(fives: seq<nat>) {
    var rest := |fives| * 5 % 8;
    PowPositive(2, rest);
    rest < 5 && Value(fives, 32) % Pow(2, rest) == 0
  }

  /** Five-bit symbols survive the trip through bytes exactly when their padding is clean. */
  lemma FivesOfEights(fives: seq<nat>)
    requires AreDigits(fives, 32)
    ensures ToFives(ToEights(fives)) == fives <==> CleanPadding(fives)
  {
    hide ToFives, ToEights, Pow, Value, Shl, Shr;
    var m, v := |fives|, Value(fives, 32);
    var rest, n := m * 5 % 8, m * 5 / 8;
    assert 5 * m == 8 * n + rest;
    EightsValue(fives);
    var back := ToFives(ToEights(fives));
    FivesValue(ToEights(fives));
    ShiftBack(v, rest);
    if rest < 5 {
      assert FiveCount(n) == m && FivePad(n) == rest;
      if v % Pow(2, rest) == 0 {
        ValueInjective(back, fives, 32);
      }
    } else {
      assert FiveCount(n) == m - 1;
    }
  }
}
