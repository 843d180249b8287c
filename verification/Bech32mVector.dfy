/** A valid string of BIP-350 in which every symbol of the alphabet occurs: the encoder writes it. */
module Bech32mVector {
  import opened Wrappers
  import opened Radix
  import opened Bech32m
  import opened Bech32mText

  const TEXT := "abcdef1l7aum6echk45nj3s0wdvt2fg8x9yrzpqzd3ryx"

  /** The symbols from 31 down to 0, by six. */
  const D1: seq<nat> := [31, 30, 29, 28, 27, 26]
  const D2: seq<nat> := [25, 24, 23, 22, 21, 20]
  const D3: seq<nat> := [19, 18, 17, 16, 15, 14]
  const D4: seq<nat> := [13, 12, 11, 10, 9, 8]
  const D5: seq<nat> := [7, 6, 5, 4, 3, 2]
  const D6: seq<nat> := [1, 0]

  function AllSymbols(): seq<nat> { D1 + (D2 + (D3 + (D4 + (D5 + D6)))) }

  // ----- the register, step by step -----

  lemma {:induction false} ChunkB()
    ensures PolymodFrom(0x23, [3, 3, 3, 3, 3, 0]) == 0x4DCBCD9
  {
    PolymodSix(0x23, [3, 3, 3, 3, 3, 0], 0x463, 0x8C63, 0x118C63,
               0x2318C63, 0x3D5BDBD1, 0x4DCBCD9);
  }

  lemma {:induction false} ChunkC()
    ensures PolymodFrom(0x4DCBCD9, [1, 2, 3, 4, 5, 6]) == 0x3BE80E6A
  {
    PolymodSix(0x4DCBCD9, [1, 2, 3, 4, 5, 6], 0x3DC7154C, 0x17456F7B, 0x8D50561,
               0x401B5DE, 0x266635A8, 0x3BE80E6A);
  }

  lemma {:induction false} ChunkD1()
    ensures PolymodFrom(0x3BE80E6A, [31, 30, 29, 28, 27, 26]) == 0x102672D3
  {
    PolymodSix(0x3BE80E6A, [31, 30, 29, 28, 27, 26], 0xF9CD279, 0x30018F1B, 0x1767B213,
               0xC8EA87E, 0x2924984C, 0x102672D3);
  }

  lemma {:induction false} ChunkD2()
    ensures PolymodFrom(0x102672D3, [25, 24, 23, 22, 21, 20]) == 0x1C9B0D07
  {
    PolymodSix(0x102672D3, [25, 24, 23, 22, 21, 20], 0x398C69A4, 0x387A7C0C, 0x6B8C903,
               0xA23F9A9, 0x21B47B7D, 0x1C9B0D07);
  }

  lemma {:induction false} ChunkD3()
    ensures PolymodFrom(0x1C9B0D07, [19, 18, 17, 16, 15, 14]) == 0x17EF0873
  {
    PolymodSix(0x1C9B0D07, [19, 18, 17, 16, 15, 14], 0x16D204B9, 0x3A387D30, 0x3592B937,
               0x351F9F3, 0x115569DD, 0x17EF0873);
  }

  lemma {:induction false} ChunkD4()
    ensures PolymodFrom(0x17EF0873, [13, 12, 11, 10, 9, 8]) == 0x160E43BA
  {
    PolymodSix(0x17EF0873, [13, 12, 11, 10, 9, 8], 0x1D99E46F, 0x368F29A6, 0x1B89BC7A,
               0x29BEF2DF, 0x36B20A0, 0x160E43BA);
  }

  lemma {:induction false} ChunkD5()
    ensures PolymodFrom(0x160E43BA, [7, 6, 5, 4, 3, 2]) == 0x134815C3
  {
    PolymodSix(0x160E43BA, [7, 6, 5, 4, 3, 2], 0x21B09D45, 0x1C07CA15, 0x54AE6EF,
               0xF0C5389, 0x2211B106, 0x134815C3);
  }

  lemma {:induction false} ChunkZ()
    ensures PolymodFrom(0xCD42356, [0, 0, 0, 0, 0, 0]) == 0x2F10BC25
  {
    PolymodSix(0xCD42356, [0, 0, 0, 0, 0, 0], 0x2275FD57, 0x1FC19FE1, 0x6EA0FD8,
               0x7B22DF, 0xF645BE0, 0x2F10BC25);
  }

  lemma {:induction false} Ends()
    ensures PolymodFrom(1, [3]) == 0x23 && PolymodFrom(0x134815C3, [1, 0]) == 0xCD42356
  {
    assert Feed(1, 3) == 0x23 && Feed(0x134815C3, 1) == 0x2F2ADC0E && Feed(0x2F2ADC0E, 0) == 0xCD42356;
    hide Feed;
    var one: seq<bv30>, two: seq<bv30> := [3], [1, 0];
    assert one[1..] == [] && two[1..][1..] == [];
    assert PolymodFrom(1, one) == PolymodFrom(0x23, []) && PolymodFrom(0x134815C3, two) == PolymodFrom(0x2F2ADC0E, two[1..]) == PolymodFrom(0xCD42356, []);
  }

  lemma {:induction false} Ahead(c: bv30, xs: seq<bv30>, d: bv30, ys: seq<bv30>, e: bv30)
    requires PolymodFrom(c, xs) == d && PolymodFrom(d, ys) == e
    ensures PolymodFrom(c, xs + ys) == e
  {
    hide PolymodFrom;
    PolymodConcat(c, xs, ys);
  }

  /** The register after the prefix, the symbols and six zeros. */
  lemma {:induction false} Register(a: seq<bv30>, b: seq<bv30>, c: seq<bv30>, d1: seq<bv30>, d2: seq<bv30>, d3: seq<bv30>,
                                    d4: seq<bv30>, d5: seq<bv30>, d6: seq<bv30>, z: seq<bv30>)
    requires a == [3] && b == [3, 3, 3, 3, 3, 0] && c == [1, 2, 3, 4, 5, 6]
    requires d1 == [31, 30, 29, 28, 27, 26] && d2 == [25, 24, 23, 22, 21, 20] && d3 == [19, 18, 17, 16, 15, 14]
    requires d4 == [13, 12, 11, 10, 9, 8] && d5 == [7, 6, 5, 4, 3, 2] && d6 == [1, 0] && z == [0, 0, 0, 0, 0, 0]
    ensures PolymodFrom(1, a + (b + (c + (d1 + (d2 + (d3 + (d4 + (d5 + (d6 + z))))))))) == 0x2F10BC25
  {
    hide PolymodFrom;
    ChunkB();
    ChunkC();
    ChunkD1();
    ChunkD2();
    ChunkD3();
    ChunkD4();
    ChunkD5();
    ChunkZ();
    Ends();
    Ahead(0x134815C3, d6, 0xCD42356, z, 0x2F10BC25);
    Ahead(0x160E43BA, d5, 0x134815C3, d6 + z, 0x2F10BC25);
    Ahead(0x17EF0873, d4, 0x160E43BA, d5 + (d6 + z), 0x2F10BC25);
    Ahead(0x1C9B0D07, d3, 0x17EF0873, d4 + (d5 + (d6 + z)), 0x2F10BC25);
    Ahead(0x102672D3, d2, 0x1C9B0D07, d3 + (d4 + (d5 + (d6 + z))), 0x2F10BC25);
    Ahead(0x3BE80E6A, d1, 0x102672D3, d2 + (d3 + (d4 + (d5 + (d6 + z)))), 0x2F10BC25);
    Ahead(0x4DCBCD9, c, 0x3BE80E6A, d1 + (d2 + (d3 + (d4 + (d5 + (d6 + z))))), 0x2F10BC25);
    Ahead(0x23, b, 0x4DCBCD9, c + (d1 + (d2 + (d3 + (d4 + (d5 + (d6 + z)))))), 0x2F10BC25);
    Ahead(1, a, 0x23, b + (c + (d1 + (d2 + (d3 + (d4 + (d5 + (d6 + z))))))), 0x2F10BC25);
  }

  // ----- prefix, symbols and text -----

  function High(c: char): bv30 { if c as nat < 0x80 then ((c as nat) / 32) as bv30 else 0 }

  function LowBits(c: char): nat { (c as nat) % 32 }

  function Highs(hrp: string): (ws: seq<bv30>)
    ensures |ws| == |hrp|
  {
    seq(|hrp|, i requires 0 <= i < |hrp| => High(hrp[i]))
  }

  function Lows(hrp: string): (ws: seq<bv30>)
    ensures |ws| == |hrp|
  {
    seq(|hrp|, i requires 0 <= i < |hrp| => Word(LowBits(hrp[i])))
  }

  lemma {:induction false} PrefixParts(hrp: string)
    requires IsAscii(hrp)
    ensures HrpExpand(hrp) == Highs(hrp) + [0] + Lows(hrp)
  {
    hide Word;
    assert |HrpExpand(hrp)| == 2 * |hrp| + 1;
    forall i | 0 <= i < |hrp|
      ensures HrpExpand(hrp)[i] == Highs(hrp)[i] && HrpExpand(hrp)[|hrp| + 1 + i] == Lows(hrp)[i]
    {}
  }

  lemma {:induction false} SixLetters(hrp: string)
    requires |hrp| == 6
    ensures Highs(hrp) == [High(hrp[0]), High(hrp[1]), High(hrp[2]), High(hrp[3]), High(hrp[4]), High(hrp[5])]
    ensures Lows(hrp) == [Word(LowBits(hrp[0])), Word(LowBits(hrp[1])), Word(LowBits(hrp[2])),
                          Word(LowBits(hrp[3])), Word(LowBits(hrp[4])), Word(LowBits(hrp[5]))]
  {
    hide Word, High;
  }

  lemma {:induction false} SixWords(ds: seq<nat>)
    requires |ds| == 6 && AreDigits(ds, 32)
    ensures Words(ds) == [Word(ds[0]), Word(ds[1]), Word(ds[2]), Word(ds[3]), Word(ds[4]), Word(ds[5])]
  {
    hide Word;
  }

  lemma {:induction false} HighLetters()
    ensures High('a') == High('b') == High('c') == High('d') == High('e') == High('f') == 3
  {}

  lemma {:induction false} LowLetters()
    ensures LowBits('a') == 1 && LowBits('b') == 2 && LowBits('c') == 3
    ensures LowBits('d') == 4 && LowBits('e') == 5 && LowBits('f') == 6
  {}

  lemma {:induction false} LowWords()
    ensures Word(1) == 1 && Word(2) == 2 && Word(3) == 3 && Word(4) == 4 && Word(5) == 5 && Word(6) == 6
  {}

  lemma {:induction false} PrefixFed()
    ensures HrpExpand("abcdef") == [3] + [3, 3, 3, 3, 3, 0] + [1, 2, 3, 4, 5, 6]
  {
    var hrp := "abcdef";
    assert IsAscii(hrp);
    HighLetters();
    LowLetters();
    LowWords();
    hide HrpExpand, Highs, Lows, High, LowBits, Word;
    PrefixParts(hrp);
    SixLetters(hrp);
  }

  lemma {:induction false} Fed1()
    ensures AreDigits(D1, 32) && Words(D1) == [31, 30, 29, 28, 27, 26] && Chars(D1) == "l7aum6"
  {
    SixWords(D1);
    SixChars(D1);
    assert Word(31) == 31 && Word(30) == 30 && Word(29) == 29;
    assert Word(28) == 28 && Word(27) == 27 && Word(26) == 26;
    hide Words, Chars, Word;
  }

  lemma {:induction false} Fed2()
    ensures AreDigits(D2, 32) && Words(D2) == [25, 24, 23, 22, 21, 20] && Chars(D2) == "echk45"
  {
    SixWords(D2);
    SixChars(D2);
    assert Word(25) == 25 && Word(24) == 24 && Word(23) == 23;
    assert Word(22) == 22 && Word(21) == 21 && Word(20) == 20;
    hide Words, Chars, Word;
  }

  lemma {:induction false} Fed3()
    ensures AreDigits(D3, 32) && Words(D3) == [19, 18, 17, 16, 15, 14] && Chars(D3) == "nj3s0w"
  {
    SixWords(D3);
    SixChars(D3);
    assert Word(19) == 19 && Word(18) == 18 && Word(17) == 17;
    assert Word(16) == 16 && Word(15) == 15 && Word(14) == 14;
    hide Words, Chars, Word;
  }

  lemma {:induction false} Fed4()
    ensures AreDigits(D4, 32) && Words(D4) == [13, 12, 11, 10, 9, 8] && Chars(D4) == "dvt2fg"
  {
    SixWords(D4);
    SixChars(D4);
    assert Word(13) == 13 && Word(12) == 12 && Word(11) == 11;
    assert Word(10) == 10 && Word(9) == 9 && Word(8) == 8;
    hide Words, Chars, Word;
  }

  lemma {:induction false} Fed5()
    ensures AreDigits(D5, 32) && Words(D5) == [7, 6, 5, 4, 3, 2] && Chars(D5) == "8x9yrz"
  {
    SixWords(D5);
    SixChars(D5);
    assert Word(7) == 7 && Word(6) == 6 && Word(5) == 5;
    assert Word(4) == 4 && Word(3) == 3 && Word(2) == 2;
    hide Words, Chars, Word;
  }

  lemma {:induction false} Fed6()
    ensures AreDigits(D6, 32) && Words(D6) == [1, 0] && Chars(D6) == "pq"
  {
    assert Word(1) == 1 && Word(0) == 0;
  }

  lemma {:induction false} SixChars(ds: seq<nat>)
    requires |ds| == 6 && AreDigits(ds, 32)
    ensures Chars(ds) == [CHARSET[ds[0]], CHARSET[ds[1]], CHARSET[ds[2]], CHARSET[ds[3]], CHARSET[ds[4]], CHARSET[ds[5]]]
  {}

  lemma {:induction false} TwoParts(xs: seq<nat>, ys: seq<nat>)
    requires AreDigits(xs, 32) && AreDigits(ys, 32)
    ensures AreDigits(xs + ys, 32) && Words(xs + ys) == Words(xs) + Words(ys) && Chars(xs + ys) == Chars(xs) + Chars(ys)
  {
    WordsConcat(xs, ys);
    hide Word;
  }

  lemma {:induction false} SymbolsFed()
    ensures AreDigits(AllSymbols(), 32)
    ensures Words(AllSymbols()) == Words(D1) + (Words(D2) + (Words(D3) + (Words(D4) + (Words(D5) + Words(D6)))))
    ensures Chars(AllSymbols()) == Chars(D1) + (Chars(D2) + (Chars(D3) + (Chars(D4) + (Chars(D5) + Chars(D6)))))
    ensures AreDigits(D1, 32) && AreDigits(D2, 32) && AreDigits(D3, 32) && AreDigits(D4, 32) && AreDigits(D5, 32)
    ensures AreDigits(D6, 32)
  {
    hide Words, Chars;
    TwoParts(D5, D6);
    TwoParts(D4, D5 + D6);
    TwoParts(D3, D4 + (D5 + D6));
    TwoParts(D2, D3 + (D4 + (D5 + D6)));
    TwoParts(D1, D2 + (D3 + (D4 + (D5 + D6))));
  }

  lemma {:induction false} Regrouped<T>(a: seq<T>, b: seq<T>, c: seq<T>, d1: seq<T>, d2: seq<T>, d3: seq<T>, d4: seq<T>,
                                        d5: seq<T>, d6: seq<T>, z: seq<T>)
    ensures a + b + c + (d1 + (d2 + (d3 + (d4 + (d5 + d6))))) + z ==
            a + (b + (c + (d1 + (d2 + (d3 + (d4 + (d5 + (d6 + z))))))))
  {}

  const CHECK: seq<nat> := [2, 13, 17, 3, 4, 6]

  lemma {:induction false} CheckIs()
    ensures AreDigits(AllSymbols(), 32) && AreDigits(CHECK, 32) && ChecksumDigits("abcdef", AllSymbols()) == CHECK
  {
    hide HrpExpand, Words, Chars, PolymodFrom, AllSymbols;
    PrefixFed();
    SymbolsFed();
    Fed1();
    Fed2();
    Fed3();
    Fed4();
    Fed5();
    Fed6();
    var a: seq<bv30>, b: seq<bv30>, c: seq<bv30> := [3], [3, 3, 3, 3, 3, 0], [1, 2, 3, 4, 5, 6];
    assert Zeros(6) == [0, 0, 0, 0, 0, 0];
    Regrouped(a, b, c, Words(D1), Words(D2), Words(D3), Words(D4), Words(D5), Words(D6), Zeros(6));
    Register(a, b, c, Words(D1), Words(D2), Words(D3), Words(D4), Words(D5), Words(D6), Zeros(6));
    LastSymbols();
  }

  lemma {:induction false} LastSymbols()
    ensures Symbols(Xor(0x2F10BC25, BECH32M_CONST)) == [2, 13, 17, 3, 4, 6]
    ensures AreDigits(CHECK, 32) && forall ws :: ws == Symbols(Xor(0x2F10BC25, BECH32M_CONST)) ==> SmallWords(ws) && Numbers(ws) == CHECK
  {
    assert Number(2) == 2 && Number(13) == 13 && Number(17) == 17;
    assert Number(3) == 3 && Number(4) == 4 && Number(6) == 6;
  }

  lemma {:induction false} CheckText()
    ensures AreDigits(CHECK, 32) && Chars(CHECK) == "zd3ryx"
  {}

  /** The string of the standard is what the encoder assembles, and what the decoder takes apart. */
  lemma {:induction false} StandardString()
    ensures AreDigits(AllSymbols(), 32) && Assemble("abcdef", AllSymbols()) == TEXT
    ensures DecodeSymbols(TEXT) == Ok(("abcdef", AllSymbols()))
  {
    hide HrpExpand, Words, Chars, ChecksumDigits, DecodeSymbols, AllSymbols;
    CheckIs();
    SymbolsFed();
    Fed1();
    Fed2();
    Fed3();
    Fed4();
    Fed5();
    Fed6();
    CheckText();
    TwoParts(AllSymbols(), CHECK);
    TextIs();
    DecodeAssembled("abcdef", AllSymbols());
  }

  lemma TextIs()
    ensures "abcdef" + "1" + (("l7aum6" + ("echk45" + ("nj3s0w" + ("dvt2fg" + ("8x9yrz" + "pq"))))) + "zd3ryx") == TEXT
  {}
}
