/** Mnemonics: entropy and checksum bits packed into words of 11 bits, and the two decoders
    (BIP-39, "Generating the mnemonic"). A mnemonic is the list of its words. */
module Bip39 {
  import opened Wrappers
  import opened Radix
  import opened Bytes
  import opened BitGroups

  /** The word list: 2048 words, no word twice. */
  ghost predicate WordList(words: seq<string>) {
    && |words| == 2048
    && forall i, j :: 0 <= i < j < |words| ==> words[i] != words[j]
  }

  /** The position of a word; of two equal words a dictionary keeps the later one. */
  function IndexOf(words: seq<string>, w: string): (r: Option<nat>)
    ensures r.Some? ==> r.value < |words| && words[r.value] == w
    ensures r.None? ==> w !in words
  {
    if words == [] then None
    else if words[|words| - 1] == w then Some(|words| - 1)
    else IndexOf(words[..|words| - 1], w)
  }

  lemma {:induction false} IndexOfWord(words: seq<string>, i: nat)
    requires WordList(words) && i < |words|
    ensures IndexOf(words, words[i]) == Some(i)
  {
    assert words[i] in words;
  }

  // ----- encoding -----

  /** Checksum bits: one for each four bytes of entropy. */
  predicate EntropySize(n: nat) { n == 16 || n == 20 || n == 24 || n == 28 || n == 32 }

  predicate WordCount(n: nat) { n == 12 || n == 15 || n == 18 || n == 21 || n == 24 }

  /** The first `cs` bits of a digest. */
  function Checksum(d: Digest, cs: nat): nat
    requires cs <= 8
  {
    Shr(d[0], 8 - cs)
  }

  /** Entropy followed by its checksum. */
  function Packed(h: Hash, entropy: bytes): nat
    requires |entropy| <= 32
  {
    Shl(BigEndian(entropy), |entropy| / 4) + Checksum(h(entropy), |entropy| / 4)
  }

  function WordsAt(words: seq<string>, idx: seq<nat>): (ws: seq<string>)
    requires |words| == 2048 && AreDigits(idx, 2048)
    ensures |ws| == |idx|
  {
    seq(|idx|, i requires 0 <= i < |idx| => words[idx[i]])
  }

  function Mnemonic(h: Hash, words: seq<string>, entropy: bytes): Result<seq<string>>
    requires |words| == 2048
  {
    if !EntropySize(|entropy|) then Err
    else Ok(WordsAt(words, Digits(Packed(h, entropy), 2048, 3 * |entropy| / 4)))
  }

  lemma {:induction false} DigitAt(v: nat, b: nat, n: nat, i: nat)
    requires b >= 2 && i < n
    ensures Pow(b, n - 1 - i) > 0 && Digits(v, b, n)[i] == v / Pow(b, n - 1 - i) % b
    decreases n
  {
    PowPositive(b, n - 1 - i);
    if i == n - 1 {
      assert Pow(b, 0) == 1;
    } else {
      DigitAt(v / b, b, n - 1, i);
      var p := Pow(b, n - 2 - i);
      assert Pow(b, n - 1 - i) == b * p;
      PowPositive(b, n - 2 - i);
      DivDiv(v, b, p);
    }
  }

  /** Eleven bits are one word. */
  lemma {:induction false} ElevenBits(k: nat)
    ensures Pow(2, 11) == 2048 && Pow(2, 11 * k) == Pow(2048, k)
  {
    PowFacts();
    assert Pow(2, 11) == 2048 by {
      assert Pow(2, 5) == 32;
      assert Pow(2, 6) == 64 && Pow(2, 7) == 128 && Pow(2, 9) == 512 && Pow(2, 10) == 1024;
    }
    PowPow(11, k);
  }

  /** The loop that takes eleven bits at a time from the top. */
  method MnemonicFromEntropy(h: Hash, words: seq<string>, entropy: bytes) returns (r: Result<seq<string>>)
    requires |words| == 2048
    ensures r == Mnemonic(h, words, entropy)
  {
    if !EntropySize(|entropy|) {
      return Err;
    }
    var cs := |entropy| / 4;
    var bits := Packed(h, entropy);
    var n := (|entropy| * 8 + cs) / 11;
    var total := |entropy| * 8 + cs;
    assert n == 3 * |entropy| / 4 && total == 11 * n;
    ghost var goal := WordsAt(words, Digits(bits, 2048, n));
    var out: seq<string> := [];
    hide *;
    for i := 0 to n
      invariant total == 11 * (n - i)
      invariant |out| == i && out == goal[..i]
    {
      total := total - 11;
      WordAt(words, bits, n, i, total);
      out := out + [words[Shr(bits, total) % 2048]];
    }
    assert goal[..n] == goal;
    return Ok(out);
  }

  /** Eleven bits at a place are the word at that place. */
  lemma {:induction false} WordAt(words: seq<string>, bits: nat, n: nat, i: nat, total: nat)
    requires |words| == 2048 && i < n && total == 11 * (n - 1 - i)
    ensures WordsAt(words, Digits(bits, 2048, n))[i] == words[Shr(bits, total) % 2048]
  {
    hide *;
    ElevenBits(n - 1 - i);
    DigitAt(bits, 2048, n, i);
    ShrIs(bits, total);
    WordsAtIndex(words, Digits(bits, 2048, n), i);
  }

  lemma WordsAtIndex(words: seq<string>, idx: seq<nat>, i: nat)
    requires |words| == 2048 && AreDigits(idx, 2048) && i < |idx|
    ensures WordsAt(words, idx)[i] == words[idx[i]]
  {}

  lemma {:induction false} ShrIs(v: nat, k: nat)
    ensures Pow(2, k) > 0 && Shr(v, k) == v / Pow(2, k)
  {
    PowPositive(2, k);
  }

  // ----- decoding -----

  function Indices(words: seq<string>, ws: seq<string>): (r: Result<seq<nat>>)
    requires |words| == 2048
    ensures r.Ok? ==> |r.value| == |ws| && AreDigits(r.value, 2048)
    decreases |ws|
  {
    if ws == [] then Ok([])
    else
      var n := |ws| - 1;
      var before :- Indices(words, ws[..n]);
      var i := IndexOf(words, ws[n]);
      if i.None? then Err else Ok(before + [i.value])
  }

  /** Entropy and checksum bits of a packed number. */
  function EntropyOf(bits: nat, n: nat): bytes { ToBytes(Shr(bits, n / 3), 4 * n / 3) }

  /** `entropy_from_mnemonic`: the checksum is compared with the top bits of the whole digest. */
  function Entropy(h: Hash, words: seq<string>, ws: seq<string>): Result<bytes>
    requires |words| == 2048
  {
    if !WordCount(|ws|) then Err
    else
      var idx :- Indices(words, ws);
      var bits := Value(idx, 2048);
      var cs := |ws| / 3;
      var e := EntropyOf(bits, |ws|);
      if bits % Two(cs) != Shr(BigEndian(h(e)), 256 - cs) then Err else Ok(e)
  }

  function Two(k: nat): (p: nat)
    ensures p > 0
  {
    PowPositive(2, k);
    Pow(2, k)
  }

  /** `validate_mnemonic`: the checksum is compared with the top bits of the digest's first byte. */
  function Validated(h: Hash, words: seq<string>, ws: seq<string>): Result<bytes>
    requires |words| == 2048
  {
    if !WordCount(|ws|) then Err
    else
      var idx :- Indices(words, ws);
      var bits := Value(idx, 2048);
      var cs := |ws| / 3;
      var e := EntropyOf(bits, |ws|);
      if bits % Two(cs) != Checksum(h(e), cs) then Err else Ok(e)
  }

  /** Shifting in one word after another, and stopping at an unknown word. */
  method PackWords(words: seq<string>, ws: seq<string>) returns (r: Result<nat>)
    requires |words| == 2048
    ensures r == (var idx :- Indices(words, ws); Ok(Value(idx, 2048)))
  {
    var bits: nat := 0;
    ghost var done: seq<nat> := [];
    assert ws[..0] == [];
    hide IndexOf, Indices, Value;
    NoWords(words);
    for k := 0 to |ws|
      invariant Indices(words, ws[..k]) == Ok(done) && bits == Value(done, 2048)
    {
      IndicesPrefix(words, ws, k);
      var i := IndexOf(words, ws[k]);
      if i.None? {
        return Err;
      }
      ValueAppend(done, i.value);
      bits := bits * 2048 + i.value;
      done := done + [i.value];
    }
    assert ws[..|ws|] == ws;
    return Ok(bits);
  }

  lemma {:induction false} NoWords(words: seq<string>)
    requires |words| == 2048
    ensures Indices(words, []) == Ok([]) && Value([], 2048) == 0
  {}

  lemma {:induction false} ValueAppend(ds: seq<nat>, d: nat)
    ensures Value(ds + [d], 2048) == Value(ds, 2048) * 2048 + d
  {
    assert (ds + [d])[..|ds|] == ds;
  }

  lemma {:induction false} IndicesPrefix(words: seq<string>, ws: seq<string>, k: nat)
    requires |words| == 2048 && k < |ws|
    ensures Indices(words, ws).Ok? ==> Indices(words, ws[..k + 1]).Ok?
    ensures Indices(words, ws[..k + 1]) ==
            (var before :- Indices(words, ws[..k]);
             var i := IndexOf(words, ws[k]);
             if i.None? then Err else Ok(before + [i.value]))
    decreases |ws|
  {
    hide IndexOf;
    assert ws[..k + 1][..k] == ws[..k];
    var n := |ws| - 1;
    if k < n {
      IndicesPrefix(words, ws[..n], k);
      assert ws[..n][..k + 1] == ws[..k + 1] && ws[..n][..k] == ws[..k];
    } else {
      assert ws[..k + 1] == ws;
    }
  }

  method EntropyFromMnemonic(h: Hash, words: seq<string>, ws: seq<string>) returns (r: Result<bytes>)
    requires |words| == 2048
    ensures r == Entropy(h, words, ws)
  {
    if !WordCount(|ws|) {
      return Err;
    }
    var bits := PackWords(words, ws);
    if bits.Err? {
      return Err;
    }
    var cs := |ws| / 3;
    var e := EntropyOf(bits.value, |ws|);
    if bits.value % Two(cs) != Shr(BigEndian(h(e)), 256 - cs) {
      return Err;
    }
    return Ok(e);
  }

  method ValidateMnemonic(h: Hash, words: seq<string>, ws: seq<string>) returns (r: Result<bytes>)
    requires |words| == 2048
    ensures r == Validated(h, words, ws)
  {
    if !WordCount(|ws|) {
      return Err;
    }
    var bits := PackWords(words, ws);
    if bits.Err? {
      return Err;
    }
    var cs := |ws| / 3;
    var e := EntropyOf(bits.value, |ws|);
    if bits.value % Two(cs) != Checksum(h(e), cs) {
      return Err;
    }
    return Ok(e);
  }

  // ----- the decoders agree -----

  lemma {:induction false} FirstByte(d: bytes, n: nat)
    requires |d| == n + 1
    ensures Pow(2, 8 * n) > 0 && BigEndian(d) / Pow(2, 8 * n) == d[0]
  {
    var rest := d[1..];
    assert d == [d[0]] + rest;
    ValueConcat([d[0]], rest, 256);
    assert Value([d[0]], 256) == Value([], 256) * 256 + d[0];
    BigEndianBound(rest);
    PowFacts();
    PowPow(8, n);
    PowPositive(2, 8 * n);
    hide Pow, Value;
    DivModUnique(d[0], Pow(2, 8 * n), BigEndian(rest));
  }

  lemma FirstBits(d: bytes, n: nat, k: nat)
    requires |d| == n + 1
    ensures Shr(BigEndian(d), 8 * n + k) == Shr(d[0], k)
  {
    hide Pow, BigEndian, Shr;
    FirstByte(d, n);
    DivPowAdd(BigEndian(d), 8 * n, k);
    ShrIs(BigEndian(d), 8 * n + k);
    ShrIs(d[0], k);
  }

  /** The top bits of a digest are the top bits of its first byte. */
  lemma TopBits(d: Digest, cs: nat)
    requires cs <= 8
    ensures Shr(BigEndian(d), 256 - cs) == Checksum(d, cs)
  {
    hide Shr, BigEndian;
    FirstBits(d, 31, 8 - cs);
  }

  /** Both decoders accept the same word lists with the same entropy. */
  lemma DecodersAgree(h: Hash, words: seq<string>, ws: seq<string>)
    requires |words| == 2048
    ensures Validated(h, words, ws) == Entropy(h, words, ws)
  {
    hide Indices, Checksum, Shr, BigEndian, EntropyOf;
    if WordCount(|ws|) && Indices(words, ws).Ok? {
      TopBits(h(EntropyOf(Value(Indices(words, ws).value, 2048), |ws|)), |ws| / 3);
    }
  }

  // ----- both ways -----

  lemma {:induction false} IndicesOfWords(words: seq<string>, idx: seq<nat>)
    requires WordList(words) && AreDigits(idx, 2048)
    ensures Indices(words, WordsAt(words, idx)) == Ok(idx)
    decreases |idx|
  {
    if idx != [] {
      var n := |idx| - 1;
      assert AreDigits(idx[..n], 2048);
      IndicesOfWords(words, idx[..n]);
      assert WordsAt(words, idx)[..n] == WordsAt(words, idx[..n]);
      IndexOfWord(words, idx[n]);
      assert idx == idx[..n] + [idx[n]];
    }
  }

  lemma {:induction false} WordsOfIndices(words: seq<string>, ws: seq<string>, idx: seq<nat>)
    requires |words| == 2048 && Indices(words, ws) == Ok(idx)
    ensures WordsAt(words, idx) == ws
    decreases |ws|
  {
    if ws != [] {
      var n := |ws| - 1;
      var before := Indices(words, ws[..n]).value;
      WordsOfIndices(words, ws[..n], before);
      assert idx == before + [idx[n]];
      forall i | 0 <= i < |ws|
        ensures WordsAt(words, idx)[i] == ws[i]
      {
        if i < n {
          assert WordsAt(words, before)[i] == ws[..n][i];
        }
      }
    }
  }

  lemma ChecksumBound(d: Digest, cs: nat)
    requires cs <= 8
    ensures Checksum(d, cs) < Two(cs)
  {
    PowFacts();
    ShrIs(d[0], 8 - cs);
    PowAdd(2, cs, 8 - cs);
    QuotientBound(d[0], Pow(2, cs), Pow(2, 8 - cs));
  }

  lemma QuotientBound(v: nat, a: nat, b: nat)
    requires a > 0 && b > 0 && v < a * b
    ensures v / b < a
  {
    var q := v / b;
    assert q * b + v % b == v;
    if q >= a {
      MulMonotone(a, q, b);
    }
  }

  lemma PackSplits(e: nat, c: nat, k: nat)
    requires c < Two(k)
    ensures Shr(Shl(e, k) + c, k) == e && (Shl(e, k) + c) % Two(k) == c
  {
    DivModUnique(e, Two(k), c);
  }

  lemma PackJoins(bits: nat, k: nat)
    ensures bits == Shl(Shr(bits, k), k) + bits % Two(k)
  {
    PowPositive(2, k);
  }

  /** 33 bits for each checksum bit: the packed number fits its words. */
  lemma {:induction false} PackedFits(e: nat, c: nat, cs: nat)
    requires e < Pow(256, 4 * cs) && c < Two(cs)
    ensures Shl(e, cs) + c < Pow(2048, 3 * cs)
  {
    PowFacts();
    PowPow(8, 4 * cs);
    ElevenBits(3 * cs);
    PowAdd(2, 32 * cs, cs);
    assert 8 * (4 * cs) == 32 * cs && 11 * (3 * cs) == 33 * cs;
    ShiftBound(e, c, Pow(2, 32 * cs), Two(cs));
  }

  lemma ShiftBound(e: nat, c: nat, p: nat, q: nat)
    requires e < p && c < q
    ensures e * q + c < p * q
  {
    MulMonotone(e + 1, p, q);
    assert (e + 1) * q == e * q + q;
  }

  /** And the other way: the bits of `3 * cs` words leave `4 * cs` bytes of entropy. */
  lemma {:induction false} EntropyFits(bits: nat, cs: nat)
    requires bits < Pow(2048, 3 * cs)
    ensures Shr(bits, cs) < Pow(256, 4 * cs)
  {
    PowFacts();
    PowPow(8, 4 * cs);
    ElevenBits(3 * cs);
    PowAdd(2, 32 * cs, cs);
    PowPositive(2, 32 * cs);
    assert 8 * (4 * cs) == 32 * cs && 11 * (3 * cs) == 33 * cs;
    ShrIs(bits, cs);
    QuotientBound(bits, Pow(2, 32 * cs), Pow(2, cs));
  }

  /** Packed entropy fits its words, so its index list has its value. */
  lemma {:induction false} PackedDigits(h: Hash, entropy: bytes, cs: nat, bits: nat)
    requires |entropy| == 4 * cs && cs <= 8 && bits == Packed(h, entropy)
    ensures Value(Digits(bits, 2048, 3 * cs), 2048) == bits
  {
    PackedIs(h, entropy, cs);
    hide *;
    ChecksumBound(h(entropy), cs);
    BigEndianBound(entropy);
    PackedFits(BigEndian(entropy), Checksum(h(entropy), cs), cs);
    ValueOfDigits(bits, 2048, 3 * cs);
  }

  /** The index list of a packed entropy decodes to that entropy and its checksum. */
  lemma IndicesDecode(h: Hash, entropy: bytes, cs: nat, bits: nat)
    requires |entropy| == 4 * cs && cs <= 8 && bits == Packed(h, entropy)
    ensures EntropyOf(bits, 3 * cs) == entropy && bits % Two(cs) == Checksum(h(entropy), cs)
  {
    PackedIs(h, entropy, cs);
    hide *;
    ChecksumBound(h(entropy), cs);
    PackSplits(BigEndian(entropy), Checksum(h(entropy), cs), cs);
    EntropyBack(entropy, bits, cs);
  }

  lemma PackedIs(h: Hash, entropy: bytes, cs: nat)
    requires |entropy| == 4 * cs && cs <= 8
    ensures Packed(h, entropy) == Shl(BigEndian(entropy), cs) + Checksum(h(entropy), cs)
  {
    assert |entropy| / 4 == cs;
    hide Shl, BigEndian, Checksum;
  }

  lemma EntropyBack(entropy: bytes, bits: nat, cs: nat)
    requires |entropy| == 4 * cs && Shr(bits, cs) == BigEndian(entropy)
    ensures EntropyOf(bits, 3 * cs) == entropy
  {
    hide Shr, BigEndian, ToBytes;
    assert 3 * cs / 3 == cs && 4 * (3 * cs) / 3 == 4 * cs;
    ToBytesBigEndian(entropy);
  }

  lemma Decodes(h: Hash, words: seq<string>, entropy: bytes, ws: seq<string>)
    requires WordList(words) && Mnemonic(h, words, entropy) == Ok(ws)
    ensures Validated(h, words, ws) == Ok(entropy)
  {
    var cs := |entropy| / 4;
    assert |entropy| == 4 * cs && 3 * |entropy| / 4 == 3 * cs && 3 * cs / 3 == cs;
    var idx := Digits(Packed(h, entropy), 2048, 3 * cs);
    hide Packed, Checksum, Digits, Indices, WordsAt, Two, Value, EntropyOf;
    PackedDigits(h, entropy, cs, Packed(h, entropy));
    IndicesDecode(h, entropy, cs, Packed(h, entropy));
    IndicesOfWords(words, idx);
  }

  lemma {:induction false} EntropyNumber(bits: nat, cs: nat)
    requires bits < Pow(2048, 3 * cs)
    ensures |EntropyOf(bits, 3 * cs)| == 4 * cs && BigEndian(EntropyOf(bits, 3 * cs)) == Shr(bits, cs)
  {
    assert 3 * cs / 3 == cs && 4 * (3 * cs) / 3 == 4 * cs;
    assert EntropyOf(bits, 3 * cs) == ToBytes(Shr(bits, cs), 4 * cs);
    hide *;
    EntropyFits(bits, cs);
    BigEndianToBytes(Shr(bits, cs), 4 * cs);
  }

  /** The entropy of a decoded index list packs to that list. */
  lemma {:induction false} IndicesEncode(h: Hash, idx: seq<nat>, cs: nat, bits: nat, entropy: bytes)
    requires AreDigits(idx, 2048) && |idx| == 3 * cs && cs <= 8 && bits == Value(idx, 2048)
    requires entropy == EntropyOf(bits, 3 * cs) && bits % Two(cs) == Checksum(h(entropy), cs)
    ensures |entropy| == 4 * cs && Packed(h, entropy) == bits
  {
    hide *;
    ValueBound(idx, 2048);
    EntropyNumber(bits, cs);
    PackedIs(h, entropy, cs);
    PackJoins(bits, cs);
  }

  lemma Encodes(h: Hash, words: seq<string>, ws: seq<string>, entropy: bytes)
    requires |words| == 2048 && Validated(h, words, ws) == Ok(entropy)
    ensures Mnemonic(h, words, entropy) == Ok(ws)
  {
    var cs := |ws| / 3;
    assert |ws| == 3 * cs && cs <= 8;
    var idx := Indices(words, ws).value;
    hide Packed, Checksum, Digits, Indices, WordsAt, Two, Value, EntropyOf;
    IndicesEncode(h, idx, cs, Value(idx, 2048), entropy);
    DigitsOfValue(idx, 2048);
    WordsOfIndices(words, ws, idx);
    assert 3 * |entropy| / 4 == 3 * cs;
  }

  /** Encoding and decoding are inverse, for every hash, both ways and for all sizes. */
  lemma BothWays(h: Hash, words: seq<string>, entropy: bytes, ws: seq<string>)
    requires WordList(words)
    ensures Mnemonic(h, words, entropy) == Ok(ws) <==> Entropy(h, words, ws) == Ok(entropy)
  {
    hide Mnemonic, Entropy, Validated, WordList;
    assert |words| == 2048 by {
      WordListSize(words);
    }
    DecodersAgree(h, words, ws);
    if Mnemonic(h, words, entropy) == Ok(ws) {
      Decodes(h, words, entropy, ws);
    }
    if Entropy(h, words, ws) == Ok(entropy) {
      Encodes(h, words, ws, entropy);
    }
  }

  lemma WordListSize(words: seq<string>)
    requires WordList(words)
    ensures |words| == 2048
  {}
}
