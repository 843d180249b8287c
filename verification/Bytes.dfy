/** Byte strings and their big-endian integers. */
module Bytes {
  import opened Radix

  type byte = x: nat | x < 256
  type bytes = seq<byte>

  /** A SHA-256-sized digest, and hash functions that return one. */
  type Digest = b: bytes | |b| == 32 witness seq(32, _ => 0)
  type Hash = bytes -> Digest

  /** Big-endian unsigned integer of a byte string. */
  function BigEndian(b: bytes): nat
  {
    Value(b, 256)
  }

  /** `v` in exactly `n` bytes; the high part of a `v` that does not fit is lost. */
  function ToBytes(v: nat, n: nat): (b: bytes)
    ensures |b| == n
  {
    Digits(v, 256, n)
  }

  /** Number of bytes of the shortest big-endian form of `v`; zero needs none. */
  function ByteLength(v: nat): (n: nat)
  {
    if v == 0 then 0 else 1 + ByteLength(v / 256)
  }

  /** Shortest big-endian form. */
  function MinimalBytes(v: nat): bytes
  {
    ToBytes(v, ByteLength(v))
  }

  lemma {:induction false} BigEndianBound(b: bytes)
    ensures BigEndian(b) < Pow(256, |b|)
  {
    ValueBound(b, 256);
  }

  lemma {:induction false} BigEndianToBytes(v: nat, n: nat)
    requires v < Pow(256, n)
    ensures BigEndian(ToBytes(v, n)) == v
  {
    ValueOfDigits(v, 256, n);
  }

  lemma ToBytesBigEndian(b: bytes)
    ensures ToBytes(BigEndian(b), |b|) == b
  {
    DigitsOfValue(b, 256);
  }

  lemma {:induction false} ByteLengthFits(v: nat)
    ensures v < Pow(256, ByteLength(v))
    ensures v > 0 ==> Pow(256, ByteLength(v) - 1) <= v
  {
    if v > 0 {
      ByteLengthFits(v / 256);
    }
  }

  lemma {:induction false} ByteLengthLeast(v: nat, n: nat)
    requires v < Pow(256, n)
    ensures ByteLength(v) <= n
  {
    if v > 0 {
      assert n > 0;
      ByteLengthLeast(v / 256, n - 1);
    }
  }

  lemma BigEndianMinimal(v: nat)
    ensures BigEndian(MinimalBytes(v)) == v
  {
    ByteLengthFits(v);
    BigEndianToBytes(v, ByteLength(v));
  }

  /** The shortest form does not start with a zero byte. */
  lemma {:induction false} MinimalHead(v: nat)
    requires v > 0
    ensures |MinimalBytes(v)| > 0 && MinimalBytes(v)[0] > 0
  {
    var w := v / 256;
    assert MinimalBytes(v) == MinimalBytes(w) + [v % 256];
    if v >= 256 {
      MinimalHead(w);
    } else {
      assert MinimalBytes(w) == [];
    }
  }

  /** No other byte string of the same value is as short. */
  lemma MinimalIsShortest(b: bytes)
    ensures |MinimalBytes(BigEndian(b))| <= |b|
    ensures |MinimalBytes(BigEndian(b))| == |b| ==> MinimalBytes(BigEndian(b)) == b
  {
    BigEndianBound(b);
    ByteLengthLeast(BigEndian(b), |b|);
    ToBytesBigEndian(b);
  }

  /** Byte strings of one length order as their numbers: the first byte that differs decides. */
  lemma {:induction false} BytesOrder(a: bytes, b: bytes, k: nat)
    requires |a| == |b| && k < |a| && a[..k] == b[..k] && a[k] < b[k]
    ensures BigEndian(a) < BigEndian(b)
    decreases |a|
  {
    var n := |a| - 1;
    if k < n {
      assert a[..n][..k] == a[..k] && b[..n][..k] == b[..k];
      BytesOrder(a[..n], b[..n], k);
    }
  }

  /** Python's int.bit_length. */
  function BitLength(v: nat): nat
  {
    if v == 0 then 0 else 1 + BitLength(v / 2)
  }

  lemma {:induction false} BitLengthShift4(v: nat)
    requires v >= 16
    ensures BitLength(v) == 4 + BitLength(v / 16)
  {
    var a := v / 2;
    var b := a / 2;
    var c := b / 2;
    assert BitLength(v) == 1 + BitLength(a);
    assert BitLength(a) == 1 + BitLength(b);
    assert BitLength(b) == 1 + BitLength(c);
    assert BitLength(c) == 1 + BitLength(c / 2);
    assert c / 2 == v / 16;
  }

  lemma {:induction false} BitLengthNibble(v: nat)
    requires 0 < v < 16
    ensures 1 <= BitLength(v) <= 4
  {
    var a := v / 2;
    var b := a / 2;
    var c := b / 2;
    assert BitLength(v) == 1 + BitLength(a);
    assert b > 0 ==> BitLength(a) == 1 + BitLength(b);
    assert c > 0 ==> BitLength(b) == 1 + BitLength(c);
    assert c / 2 == 0;
  }

  /** The source sizes integers as (bit_length + 7) // 8 bytes; that is the least number of bytes. */
  lemma {:induction false} BitLengthBytes(v: nat)
    ensures (BitLength(v) + 7) / 8 == ByteLength(v)
  {
    if v >= 256 {
      BitLengthShift4(v);
      BitLengthShift4(v / 16);
      assert v / 16 / 16 == v / 256;
      BitLengthBytes(v / 256);
    } else if v >= 16 {
      BitLengthShift4(v);
      BitLengthNibble(v / 16);
      assert ByteLength(v) == 1;
    } else if v > 0 {
      BitLengthNibble(v);
      assert ByteLength(v) == 1;
    }
  }

  lemma PartOfPart<T>(s: seq<T>, p: nat, n: nat, i: nat, j: nat)
    requires i <= j <= n && p + n <= |s|
    ensures s[p..p + n][i..j] == s[p + i..p + j]
  {
    var x, y := s[p..p + n][i..j], s[p + i..p + j];
    assert |x| == |y| == j - i;
    forall k | 0 <= k < j - i
      ensures x[k] == y[k]
    {
      assert x[k] == s[p..p + n][i + k] == s[p + i + k];
    }
  }

  /** `n` bytes at `p1` in one string are the `n` bytes at `p2` in another. */
  ghost predicate SameStretch(d1: bytes, p1: nat, d2: bytes, p2: nat, n: nat) {
    && p1 + n <= |d1|
    && p2 + n <= |d2|
    && d1[p1..p1 + n] == d2[p2..p2 + n]
  }

  lemma SameParts(d1: bytes, p1: nat, d2: bytes, p2: nat, n: nat, i: nat, j: nat)
    requires i <= j <= n && SameStretch(d1, p1, d2, p2, n)
    ensures SameStretch(d1, p1 + i, d2, p2 + i, j - i)
  {
    PartOfPart(d1, p1, n, i, j);
    PartOfPart(d2, p2, n, i, j);
  }

  lemma SameByte(d1: bytes, p1: nat, d2: bytes, p2: nat, n: nat)
    requires 0 < n && SameStretch(d1, p1, d2, p2, n)
    ensures d1[p1] == d2[p2]
  {
    assert d1[p1] == d1[p1..p1 + n][0];
    assert d2[p2] == d2[p2..p2 + n][0];
  }

  /** A part of a string stands at its place inside any string built around it. */
  lemma StretchInside(d: bytes, p: nat, n: nat, pre: bytes, post: bytes)
    requires p + n <= |d|
    ensures SameStretch(d, p, pre + d[p..p + n] + post, |pre|, n)
  {
    var whole := pre + d[p..p + n] + post;
    assert whole[|pre|..|pre| + n] == d[p..p + n];
  }

  /** The string `e` stands in `data` at `pos`. */
  ghost predicate StandsAt(e: bytes, data: bytes, pos: nat) {
    && pos + |e| <= |data|
    && data[pos..pos + |e|] == e
  }

  lemma SplitAt(a: bytes, b: bytes, data: bytes, pos: nat)
    requires StandsAt(a + b, data, pos)
    ensures StandsAt(a, data, pos) && StandsAt(b, data, pos + |a|)
  {
    var ab := a + b;
    PartOfPart(data, pos, |ab|, 0, |a|);
    PartOfPart(data, pos, |ab|, |a|, |ab|);
    assert ab[0..|a|] == a && ab[|a|..|ab|] == b;
  }

  lemma StandsInside(pre: bytes, e: bytes, post: bytes)
    ensures StandsAt(e, pre + e + post, |pre|)
  {}
}
