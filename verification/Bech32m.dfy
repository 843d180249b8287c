/** bech32m strings: checksum, encoder and decoder (BIP-173 with the constant of BIP-350). */
module Bech32m {
  // ----- the checksum polynomial -----

  const GEN: seq<bv30> := [0x3B6A57B2, 0x26508E6D, 0x1EA119FA, 0x3D4233DD, 0x2A1462B3]
  const BECH32M_CONST: bv30 := 0x2BC830A3

  function Xor(a: bv30, b: bv30): bv30 { a ^ b }

  function Low(c: bv30): bv30 { (c & 0x1FFFFFF) << 5 }

  function Tap(c: bv30, k: nat): bv30
    requires k < 5
  {
    if ((c >> 25) >> k) & 1 == 1 then GEN[k] else 0
  }

  /** The generators that the top bits of `c` select among the first `n`. */
  function Taps(c: bv30, n: nat): bv30
    requires n <= 5
  {
    if n == 0 then 0 else Xor(Taps(c, n - 1), Tap(c, n - 1))
  }

  function Feed(c: bv30, v: bv30): bv30
  {
    Xor(Xor(Low(c), v), Taps(c, 5))
  }

  function PolymodFrom(c: bv30, values: seq<bv30>): bv30
    decreases |values|
  {
    if values == [] then c else PolymodFrom(Feed(c, values[0]), values[1..])
  }

  method FeedLoop(c: bv30, v: bv30) returns (chk: bv30)
    ensures chk == Feed(c, v)
  {
    hide Low, Xor, Tap;
    var b := c >> 25;
    chk := Xor(Low(c), v);
    ghost var start := chk;
    XorZero(chk);
    for i := 0 to 5
      invariant chk == Xor(start, Taps(c, i))
    {
      var tap := if (b >> i) & 1 == 1 then GEN[i] else 0;
      TapIs(c, i, tap);
      XorAssociative(start, Taps(c, i), tap);
      chk := Xor(chk, tap);
    }
  }

  lemma TapIs(c: bv30, k: nat, tap: bv30)
    requires k < 5 && tap == if ((c >> 25) >> k) & 1 == 1 then GEN[k] else 0
    ensures tap == Tap(c, k)
  {}

  method Polymod(values: seq<bv30>) returns (chk: bv30)
    ensures chk == PolymodFrom(1, values)
  {
    hide Feed;
    chk := 1;
    assert values[0..] == values;
    for k := 0 to |values|
      invariant PolymodFrom(chk, values[k..]) == PolymodFrom(1, values)
    {
      assert values[k..][1..] == values[k + 1..];
      chk := FeedLoop(chk, values[k]);
    }
  }

  lemma XorZero(x: bv30)
    ensures Xor(x, 0) == x && Xor(0, x) == x && Xor(x, x) == 0
  {}

  lemma XorCommutes(x: bv30, y: bv30)
    ensures Xor(x, y) == Xor(y, x)
  {}

  lemma BitwiseAssociative(x: bv30, y: bv30, z: bv30)
    ensures x ^ (y ^ z) == (x ^ y) ^ z
  {}

  lemma XorAssociative(x: bv30, y: bv30, z: bv30)
    ensures Xor(x, Xor(y, z)) == Xor(Xor(x, y), z)
  {
    BitwiseAssociative(x, y, z);
  }

  lemma XorUndo(x: bv30, y: bv30)
    ensures Xor(x, Xor(x, y)) == y
  {
    hide Xor;
    XorAssociative(x, x, y);
    XorZero(x);
    XorZero(y);
  }

  lemma XorCancel(x: bv30, y: bv30, z: bv30)
    ensures Xor(x, y) == z <==> y == Xor(x, z)
  {
    hide Xor;
    XorUndo(x, y);
    XorUndo(x, z);
  }

  lemma XorSwap(a: bv30, b: bv30, c: bv30, d: bv30)
    ensures Xor(Xor(a, b), Xor(c, d)) == Xor(Xor(a, c), Xor(b, d))
  {
    hide Xor;
    calc {
      Xor(Xor(a, b), Xor(c, d));
      { XorAssociative(a, b, Xor(c, d)); }
      Xor(a, Xor(b, Xor(c, d)));
      { XorAssociative(b, c, d); XorCommutes(b, c); XorAssociative(c, b, d); }
      Xor(a, Xor(c, Xor(b, d)));
      { XorAssociative(a, c, Xor(b, d)); }
      Xor(Xor(a, c), Xor(b, d));
    }
  }

  // ----- linearity -----

  lemma BitLinear(a: bv30, b: bv30, k: nat)
    requires k < 5
    ensures (((a ^ b) >> 25) >> k) & 1 == (((a >> 25) >> k) & 1) ^ (((b >> 25) >> k) & 1)
    ensures ((a >> 25) >> k) & 1 == 0 || ((a >> 25) >> k) & 1 == 1
    ensures ((b >> 25) >> k) & 1 == 0 || ((b >> 25) >> k) & 1 == 1
  {
    if k == 0 {} else if k == 1 {} else if k == 2 {} else if k == 3 {} else {}
  }

  lemma TapLinear(a: bv30, b: bv30, k: nat)
    requires k < 5
    ensures Tap(Xor(a, b), k) == Xor(Tap(a, k), Tap(b, k))
  {
    BitLinear(a, b, k);
    XorZero(GEN[k]);
  }

  lemma {:induction false} TapsLinear(a: bv30, b: bv30, n: nat)
    requires n <= 5
    ensures Taps(Xor(a, b), n) == Xor(Taps(a, n), Taps(b, n))
  {
    hide Xor, Tap;
    if n == 0 {
      XorZero(0);
    } else {
      TapsLinear(a, b, n - 1);
      TapLinear(a, b, n - 1);
      XorSwap(Taps(a, n - 1), Taps(b, n - 1), Tap(a, n - 1), Tap(b, n - 1));
    }
  }

  lemma LowLinear(a: bv30, b: bv30)
    ensures Low(Xor(a, b)) == Xor(Low(a), Low(b))
  {}

  /** One step of the checksum is linear over exclusive or. */
  lemma FeedLinear(a: bv30, b: bv30, v: bv30, w: bv30)
    ensures Feed(Xor(a, b), Xor(v, w)) == Xor(Feed(a, v), Feed(b, w))
  {
    hide Xor, Tap, Taps, Low;
    LowLinear(a, b);
    TapsLinear(a, b, 5);
    XorSwap(Low(a), Low(b), v, w);
    XorSwap(Xor(Low(a), v), Xor(Low(b), w), Taps(a, 5), Taps(b, 5));
  }

  function Zeros(n: nat): (zs: seq<bv30>)
    ensures |zs| == n && forall i :: 0 <= i < n ==> zs[i] == 0
  {
    seq(n, _ => 0)
  }

  /** The effect of the last values on the checksum is added to what it would be without them. */
  lemma {:induction false} PolymodLinear(a: bv30, b: bv30, values: seq<bv30>)
    ensures PolymodFrom(Xor(a, b), values) == Xor(PolymodFrom(a, Zeros(|values|)), PolymodFrom(b, values))
    decreases |values|
  {
    hide Xor, Feed;
    var n := |values|;
    if n > 0 {
      var v := values[0];
      XorZero(v);
      FeedLinear(a, b, 0, v);
      assert Zeros(n)[1..] == Zeros(n - 1);
      PolymodLinear(Feed(a, 0), Feed(b, v), values[1..]);
    }
  }

  lemma {:induction false} PolymodConcat(c: bv30, xs: seq<bv30>, ys: seq<bv30>)
    ensures PolymodFrom(c, xs + ys) == PolymodFrom(PolymodFrom(c, xs), ys)
    decreases |xs|
  {
    hide Feed;
    if xs == [] {
      assert xs + ys == ys;
    } else {
      assert (xs + ys)[1..] == xs[1..] + ys;
      PolymodConcat(Feed(c, xs[0]), xs[1..], ys);
    }
  }

  // ----- the six checksum symbols -----

  function Symbols(c: bv30): seq<bv30>
  {
    [(c >> 25) & 31, (c >> 20) & 31, (c >> 15) & 31, (c >> 10) & 31, (c >> 5) & 31, c & 31]
  }

  lemma NoTop(c: bv30, k: nat)
    requires c < 0x2000000 && k < 5
    ensures Tap(c, k) == 0
  {
    assert c >> 25 == 0;
    if k == 0 {} else if k == 1 {} else if k == 2 {} else if k == 3 {} else {}
  }

  lemma {:induction false} NoTaps(c: bv30, n: nat)
    requires c < 0x2000000 && n <= 5
    ensures Taps(c, n) == 0
  {
    if n > 0 {
      NoTaps(c, n - 1);
      NoTop(c, n - 1);
    }
  }

  lemma FeedSmall(c: bv30, v: bv30, x: bv30)
    requires c < 0x2000000 && x == (c << 5) ^ v
    ensures Feed(c, v) == x
  {
    LowSmall(c, v, x);
    NoTaps(c, 5);
    hide Taps, Low, Xor;
    XorZero(x);
  }

  lemma LowSmall(c: bv30, v: bv30, x: bv30)
    requires c < 0x2000000 && x == (c << 5) ^ v
    ensures Xor(Low(c), v) == x
  {
    assert c & 0x1FFFFFF == c;
  }

  /** Six five-bit symbols fed into an empty register just fill it. */
  lemma {:induction false} PackSix(ws: seq<bv30>)
    requires |ws| == 6 && forall i :: 0 <= i < 6 ==> ws[i] < 32
    ensures Symbols(PolymodFrom(0, ws)) == ws
  {
    var x1, x2, x3, x4, x5 := FeedSix(ws[0], ws[1], ws[2], ws[3], ws[4], ws[5]);
    hide Feed, Symbols, PolymodFrom;
    PolymodSix(0, ws, ws[0], x1, x2, x3, x4, x5);
  }

  lemma {:induction false} PolymodSix(c: bv30, ws: seq<bv30>, x0: bv30, x1: bv30, x2: bv30, x3: bv30, x4: bv30, x5: bv30)
    requires |ws| == 6
    requires Feed(c, ws[0]) == x0 && Feed(x0, ws[1]) == x1 && Feed(x1, ws[2]) == x2
    requires Feed(x2, ws[3]) == x3 && Feed(x3, ws[4]) == x4 && Feed(x4, ws[5]) == x5
    ensures PolymodFrom(c, ws) == x5
  {
    hide Feed;
    assert ws[1..][1..] == ws[2..] && ws[2..][1..] == ws[3..] && ws[3..][1..] == ws[4..];
    assert ws[4..][1..] == ws[5..] && ws[5..][1..] == [];
    assert PolymodFrom(c, ws) == PolymodFrom(x0, ws[1..]) == PolymodFrom(x1, ws[2..]);
    assert PolymodFrom(x1, ws[2..]) == PolymodFrom(x2, ws[3..]) == PolymodFrom(x3, ws[4..]);
    assert PolymodFrom(x3, ws[4..]) == PolymodFrom(x4, ws[5..]) == PolymodFrom(x5, []);
  }

  lemma FeedSix(w0: bv30, w1: bv30, w2: bv30, w3: bv30, w4: bv30, w5: bv30)
    returns (x1: bv30, x2: bv30, x3: bv30, x4: bv30, x5: bv30)
    requires w0 < 32 && w1 < 32 && w2 < 32 && w3 < 32 && w4 < 32 && w5 < 32
    ensures Feed(0, w0) == w0 && Feed(w0, w1) == x1 && Feed(x1, w2) == x2
    ensures Feed(x2, w3) == x3 && Feed(x3, w4) == x4 && Feed(x4, w5) == x5
    ensures Symbols(x5) == [w0, w1, w2, w3, w4, w5]
  {
    x1, x2, x3, x4, x5 := UnpackSix(w0, w1, w2, w3, w4, w5);
    hide Feed, Symbols;
    FeedSmall(0, w0, w0);
    FeedSmall(w0, w1, x1);
    FeedSmall(x1, w2, x2);
    FeedSmall(x2, w3, x3);
    FeedSmall(x3, w4, x4);
    FeedSmall(x4, w5, x5);
  }

  lemma UnpackSix(w0: bv30, w1: bv30, w2: bv30, w3: bv30, w4: bv30, w5: bv30)
    returns (x1: bv30, x2: bv30, x3: bv30, x4: bv30, x5: bv30)
    requires w0 < 32 && w1 < 32 && w2 < 32 && w3 < 32 && w4 < 32 && w5 < 32
    ensures w0 < 0x2000000 && x1 == (w0 << 5) ^ w1 && x1 < 0x2000000
    ensures x2 == (x1 << 5) ^ w2 && x2 < 0x2000000
    ensures x3 == (x2 << 5) ^ w3 && x3 < 0x2000000
    ensures x4 == (x3 << 5) ^ w4 && x4 < 0x2000000
    ensures x5 == (x4 << 5) ^ w5
    ensures Symbols(x5) == [w0, w1, w2, w3, w4, w5]
  {
    x1 := (w0 << 5) ^ w1;
    x2 := (x1 << 5) ^ w2;
    x3 := (x2 << 5) ^ w3;
    x4 := (x3 << 5) ^ w4;
    x5 := (x4 << 5) ^ w5;
  }

  lemma SymbolsDetermine(c: bv30, d: bv30)
    requires Symbols(c) == Symbols(d)
    ensures c == d
  {
    Reassemble(c);
    Reassemble(d);
    var s, t := Symbols(c), Symbols(d);
    assert s[0] == t[0] && s[1] == t[1] && s[2] == t[2] && s[3] == t[3] && s[4] == t[4] && s[5] == t[5];
  }

  lemma Reassemble(c: bv30)
    ensures c == (((c >> 25) & 31) << 25) ^ (((c >> 20) & 31) << 20) ^ (((c >> 15) & 31) << 15)
                 ^ (((c >> 10) & 31) << 10) ^ (((c >> 5) & 31) << 5) ^ (c & 31)
  {}

  /** The encoder's checksum of the values `vs`. */
  function Checksum(vs: seq<bv30>): seq<bv30>
  {
    Symbols(Xor(PolymodFrom(1, vs + Zeros(6)), BECH32M_CONST))
  }

  /** Exactly one checksum makes the polynomial come out at the bech32m constant. */
  lemma {:induction false} ChecksumUnique(vs: seq<bv30>, ws: seq<bv30>)
    requires |ws| == 6 && forall i :: 0 <= i < 6 ==> ws[i] < 32
    ensures PolymodFrom(1, vs + ws) == BECH32M_CONST <==> ws == Checksum(vs)
  {
    hide PolymodFrom, Symbols, Xor, Zeros;
    var s := PolymodFrom(1, vs);
    var z, w := PolymodFrom(s, Zeros(6)), PolymodFrom(0, ws);
    PolymodConcat(1, vs, ws);
    PolymodConcat(1, vs, Zeros(6));
    XorZero(s);
    PolymodLinear(s, 0, ws);
    assert PolymodFrom(1, vs + ws) == Xor(z, w);
    PackSix(ws);
    XorCancel(z, w, BECH32M_CONST);
    if ws == Checksum(vs) {
      SymbolsDetermine(w, Xor(z, BECH32M_CONST));
    }
  }
}
