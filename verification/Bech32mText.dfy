/** bech32m strings: the text around the checksum and the bit groups. */
module Bech32mText {
  import opened Wrappers
  import opened Radix
  import opened Bytes
  import opened BitGroups
  import opened Bech32m

  // ----- characters -----

  const CHARSET := "qpzry9x8gf2tvdw0s3jn54khce6mua7l"

  function IndexFrom(c: char, k: nat): (r: Option<nat>)
    requires k <= 32
    ensures r.Some? ==> k <= r.value < 32 && CHARSET[r.value] == c
    ensures r.None? ==> forall i :: k <= i < 32 ==> CHARSET[i] != c
    decreases 32 - k
  {
    if k == 32 then None else if CHARSET[k] == c then Some(k) else IndexFrom(c, k + 1)
  }

  lemma CharsetDistinct(i: nat, j: nat)
    requires i < j < 32
    ensures CHARSET[i] != CHARSET[j]
  {}

  lemma IndexOfChar(d: nat)
    requires d < 32
    ensures IndexFrom(CHARSET[d], 0) == Some(d)
  {
    var i := IndexFrom(CHARSET[d], 0).value;
    if i < d {
      CharsetDistinct(i, d);
    } else if d < i {
      CharsetDistinct(d, i);
    }
  }

  function Chars(ds: seq<nat>): (t: string)
    requires AreDigits(ds, 32)
    ensures |t| == |ds|
  {
    seq(|ds|, i requires 0 <= i < |ds| => CHARSET[ds[i]])
  }

  function Indices(t: string): (r: Result<seq<nat>>)
    ensures r.Ok? ==> |r.value| == |t| && AreDigits(r.value, 32) && Chars(r.value) == t
  {
    if t == "" then Ok([])
    else
      match IndexFrom(t[0], 0)
      case None => Err
      case Some(d) =>
        var rest :- Indices(t[1..]);
        Ok([d] + rest)
  }

  lemma {:induction false} IndicesOfChars(ds: seq<nat>)
    requires AreDigits(ds, 32)
    ensures Indices(Chars(ds)) == Ok(ds)
  {
    if ds != [] {
      IndexOfChar(ds[0]);
      assert Chars(ds)[1..] == Chars(ds[1..]);
      IndicesOfChars(ds[1..]);
      assert ds == [ds[0]] + ds[1..];
    }
  }

  /** Python's str.isspace for ASCII. */
  predicate IsSpace(c: char) {
    0x09 <= c as int <= 0x0D || 0x1C <= c as int <= 0x20
  }

  predicate IsUpper(c: char) { 'A' <= c <= 'Z' }

  function LowerChar(c: char): char
  {
    if IsUpper(c) then (c as int + 32) as char else c
  }

  function Lower(s: string): (t: string)
    ensures |t| == |s|
  {
    seq(|s|, i requires 0 <= i < |s| => LowerChar(s[i]))
  }

  function StripLeft(s: string): (t: string)
    ensures t != "" ==> !IsSpace(t[0])
    ensures s != "" && !IsSpace(s[0]) ==> t == s
    ensures |t| <= |s| && t == s[|s| - |t|..]
  {
    if s != "" && IsSpace(s[0]) then StripLeft(s[1..]) else s
  }

  function StripRight(s: string): (t: string)
    ensures t <= s
    ensures s != "" && !IsSpace(s[|s| - 1]) ==> t == s
  {
    if s != "" && IsSpace(s[|s| - 1]) then StripRight(s[..|s| - 1]) else s
  }

  /** What the decoder looks at: the text without surrounding space, in lower case. */
  function Normal(s: string): string
  {
    Lower(StripRight(StripLeft(s)))
  }

  /** Position of the last '1'. */
  function LastOne(t: string): (r: Option<nat>)
    ensures r.Some? ==> r.value < |t| && t[r.value] == '1' && '1' !in t[r.value + 1..]
    ensures r.None? ==> '1' !in t
  {
    if t == "" then None
    else if t[|t| - 1] == '1' then Some(|t| - 1)
    else
      var r := LastOne(t[..|t| - 1]);
      assert t == t[..|t| - 1] + [t[|t| - 1]];
      assert r.Some? ==> t[r.value + 1..] == t[..|t| - 1][r.value + 1..] + [t[|t| - 1]];
      r
  }

  lemma {:induction false} LastOneAt(a: string, b: string)
    requires '1' !in b
    ensures LastOne(a + "1" + b) == Some(|a|)
  {
    var t := a + "1" + b;
    if b == "" {
      assert t[|t| - 1] == '1';
    } else {
      assert t[|t| - 1] == b[|b| - 1];
      assert t[..|t| - 1] == a + "1" + b[..|b| - 1];
      LastOneAt(a, b[..|b| - 1]);
    }
  }

  // ----- symbols as words -----

  function Word(d: nat): bv30
    requires d < 32
  {
    (d as bv5) as bv30
  }

  function Number(w: bv30): nat
    requires w < 32
  {
    (w as bv5) as nat
  }

  predicate SmallWords(ws: seq<bv30>) {
    forall i :: 0 <= i < |ws| ==> ws[i] < 32
  }

  function Words(ds: seq<nat>): (ws: seq<bv30>)
    requires AreDigits(ds, 32)
    ensures |ws| == |ds|
  {
    seq(|ds|, i requires 0 <= i < |ds| => Word(ds[i]))
  }

  function Numbers(ws: seq<bv30>): (ds: seq<nat>)
    requires SmallWords(ws)
    ensures |ds| == |ws|
  {
    seq(|ws|, i requires 0 <= i < |ws| => Number(ws[i]))
  }

  lemma WordSmall(d: nat)
    requires d < 32
    ensures Word(d) < 32 && Number(Word(d)) == d
  {
    var b := d as bv5;
    assert b as nat == d;
    assert (b as bv30) as bv5 == b;
  }

  lemma NumberSmall(w: bv30)
    requires w < 32
    ensures Number(w) < 32 && Word(Number(w)) == w
  {
    var b := w as bv5;
    assert (b as nat) as bv5 == b;
    assert b as bv30 == w;
  }

  lemma SymbolsSmall(c: bv30)
    ensures |Symbols(c)| == 6 && SmallWords(Symbols(c))
  {}

  lemma NumbersOfSmall(ws: seq<bv30>)
    requires SmallWords(ws)
    ensures AreDigits(Numbers(ws), 32) && Words(Numbers(ws)) == ws
  {
    hide Word, Number;
    forall i | 0 <= i < |ws|
      ensures Number(ws[i]) < 32 && Word(Number(ws[i])) == ws[i]
    {
      NumberSmall(ws[i]);
    }
  }

  lemma WordsOfSmall(ds: seq<nat>)
    requires AreDigits(ds, 32)
    ensures SmallWords(Words(ds)) && Numbers(Words(ds)) == ds
  {
    hide Word, Number;
    forall i | 0 <= i < |ds|
      ensures Word(ds[i]) < 32 && Number(Word(ds[i])) == ds[i]
    {
      WordSmall(ds[i]);
    }
  }

  lemma WordsConcat(xs: seq<nat>, ys: seq<nat>)
    requires AreDigits(xs, 32) && AreDigits(ys, 32)
    ensures AreDigits(xs + ys, 32) && Words(xs + ys) == Words(xs) + Words(ys)
  {
    hide Word;
    var zs := xs + ys;
    assert |Words(zs)| == |Words(xs) + Words(ys)|;
    forall i | 0 <= i < |zs|
      ensures Words(zs)[i] == (Words(xs) + Words(ys))[i]
    {
      if i < |xs| {
        assert zs[i] == xs[i];
      } else {
        assert zs[i] == ys[i - |xs|];
      }
    }
  }

  /** The human-readable part as checksum input: high bits, a zero, low bits. */
  function HrpExpand(hrp: string): seq<bv30>
  {
    seq(|hrp|, i requires 0 <= i < |hrp| => ((hrp[i] as nat) / 32) as bv30) + [0]
    + seq(|hrp|, i requires 0 <= i < |hrp| => Word((hrp[i] as nat) % 32))
  }

  // ----- encoder -----

  function ChecksumDigits(hrp: string, ds: seq<nat>): (cs: seq<nat>)
    requires AreDigits(ds, 32)
    ensures |cs| == 6 && AreDigits(cs, 32)
  {
    var ws := Checksum(HrpExpand(hrp) + Words(ds));
    SymbolsSmall(Xor(PolymodFrom(1, HrpExpand(hrp) + Words(ds) + Zeros(6)), BECH32M_CONST));
    NumbersOfSmall(ws);
    Numbers(ws)
  }

  /** Human-readable part, separator, symbols and their checksum. */
  function Assemble(hrp: string, ds: seq<nat>): string
    requires AreDigits(ds, 32)
  {
    hrp + "1" + Chars(ds + ChecksumDigits(hrp, ds))
  }

  function Encode(hrp: string, payload: bytes): string
  {
    FivesValue(payload);
    Assemble(hrp, ToFives(payload))
  }

  method Bech32mEncode(hrp: string, payload: bytes) returns (s: string)
    ensures s == Encode(hrp, payload)
  {
    PowFacts();
    FivesValue(payload);
    var data := ConvertBits(payload, 8, 5, true);
    var ds := data.value;
    var vals := HrpExpand(hrp) + Words(ds);
    var polymod := Polymod(vals + Zeros(6));
    var symbols := Symbols(Xor(polymod, BECH32M_CONST));
    SymbolsSmall(Xor(polymod, BECH32M_CONST));
    NumbersOfSmall(symbols);
    return hrp + "1" + Chars(ds + Numbers(symbols));
  }

  // ----- decoder -----

  function ChecksumHolds(hrp: string, ds: seq<nat>): bool
    requires AreDigits(ds, 32)
  {
    PolymodFrom(1, HrpExpand(hrp) + Words(ds)) == BECH32M_CONST
  }

  /** Human-readable part and data symbols of an accepted string, the checksum removed. */
  function DecodeSymbols(s: string): (r: Result<(string, seq<nat>)>)
    ensures r.Ok? ==> AreDigits(r.value.1, 32)
  {
    var t := Normal(s);
    match LastOne(t)
    case None => Err
    case Some(k) =>
      var hrp, part := t[..k], t[k + 1..];
      if hrp == "" || |part| < 6 then Err
      else
        var ds :- Indices(part);
        if ChecksumHolds(hrp, ds) then Ok((hrp, ds[..|ds| - 6])) else Err
  }

  function AsBytes(ds: seq<nat>): (b: bytes)
    requires AreDigits(ds, 256)
    ensures b == ds
  {
    ds
  }

  function Decode(s: string): Result<(string, bytes)>
  {
    var (hrp, ds) :- DecodeSymbols(s);
    PowFacts();
    Ok((hrp, AsBytes(ToEights(ds))))
  }

  method Bech32mDecode(s: string) returns (r: Result<(string, bytes)>)
    ensures r == Decode(s)
  {
    hide Normal, LastOne, Indices, HrpExpand, Words;
    var t := Normal(s);
    var k := LastOne(t);
    if k.None? {
      return Err;
    }
    var hrp, part := t[..k.value], t[k.value + 1..];
    if hrp == "" || |part| < 6 {
      return Err;
    }
    var data := Indices(part);
    if data.Err? {
      return Err;
    }
    var polymod := Polymod(HrpExpand(hrp) + Words(data.value));
    if polymod != BECH32M_CONST {
      return Err;
    }
    PowFacts();
    var vals := data.value[..|data.value| - 6];
    var out, acc, bits := Regroup(vals, 5, 8);
    return Ok((hrp, AsBytes(out)));
  }

  // ----- the two are inverse -----

  lemma ChecksumIff(hrp: string, ds: seq<nat>, cs: seq<nat>)
    requires AreDigits(ds, 32) && AreDigits(cs, 32) && |cs| == 6
    ensures ChecksumHolds(hrp, ds + cs) <==> cs == ChecksumDigits(hrp, ds)
  {
    hide Words, HrpExpand, Numbers, Symbols, PolymodFrom, Xor;
    var vs := HrpExpand(hrp) + Words(ds);
    var ws := Checksum(vs);
    SymbolsSmall(Xor(PolymodFrom(1, vs + Zeros(6)), BECH32M_CONST));
    NumbersOfSmall(ws);
    WordsOfSmall(cs);
    WordsConcat(ds, cs);
    assert HrpExpand(hrp) + Words(ds + cs) == vs + Words(cs);
    ChecksumUnique(vs, Words(cs));
  }

  lemma CharsHaveNoOne(ds: seq<nat>)
    requires AreDigits(ds, 32)
    ensures '1' !in Chars(ds)
  {
    forall i | 0 <= i < |ds|
      ensures Chars(ds)[i] != '1'
    {
      NotOne(ds[i]);
    }
  }

  lemma NotOne(d: nat)
    requires d < 32
    ensures CHARSET[d] != '1' && !IsSpace(CHARSET[d]) && !IsUpper(CHARSET[d]) && CHARSET[d] as int < 0x80
  {}

  /** Letter case and white space are modelled for ASCII. */
  predicate IsAscii(s: string) { forall i :: 0 <= i < |s| ==> s[i] as int < 0x80 }

  /** A human-readable part that the decoder's clean-up leaves alone. */
  predicate PlainHrp(hrp: string) {
    && hrp != "" && IsAscii(hrp)
    && !IsSpace(hrp[0])
    && forall i :: 0 <= i < |hrp| ==> !IsUpper(hrp[i])
  }

  lemma AssembledChar(hrp: string, ds: seq<nat>, i: nat)
    requires AreDigits(ds, 32) && i < |Assemble(hrp, ds)|
    ensures var c := Assemble(hrp, ds)[i];
            if i < |hrp| then c == hrp[i] else !IsUpper(c) && c as int < 0x80 && (i > |hrp| ==> !IsSpace(c))
  {
    assert !IsUpper('1');
    hide ChecksumDigits, IsSpace, IsUpper;
    var cs := ds + ChecksumDigits(hrp, ds);
    if i > |hrp| {
      assert Assemble(hrp, ds)[i] == CHARSET[cs[i - |hrp| - 1]];
      NotOne(cs[i - |hrp| - 1]);
    }
  }

  lemma AssembledLength(hrp: string, ds: seq<nat>)
    requires AreDigits(ds, 32)
    ensures |Assemble(hrp, ds)| > |hrp| + 1
  {
    hide ChecksumDigits;
  }

  lemma NormalOfPlain(s: string)
    requires s != "" && !IsSpace(s[0]) && !IsSpace(s[|s| - 1]) && forall i :: 0 <= i < |s| ==> !IsUpper(s[i])
    ensures Normal(s) == s
  {
    hide Lower, IsSpace, IsUpper, StripLeft, StripRight;
    LowerPlain(s);
  }

  lemma NormalAssembled(hrp: string, ds: seq<nat>)
    requires PlainHrp(hrp) && AreDigits(ds, 32)
    ensures Normal(Assemble(hrp, ds)) == Assemble(hrp, ds)
  {
    hide Assemble, Normal, IsSpace, IsUpper, IsAscii;
    var s := Assemble(hrp, ds);
    AssembledLength(hrp, ds);
    forall i | 0 <= i < |s|
      ensures !IsUpper(s[i])
    {
      AssembledChar(hrp, ds, i);
    }
    AssembledChar(hrp, ds, 0);
    AssembledChar(hrp, ds, |s| - 1);
    NormalOfPlain(s);
  }

  lemma LowerPlain(s: string)
    requires forall i :: 0 <= i < |s| ==> !IsUpper(s[i])
    ensures Lower(s) == s
  {}

  lemma LowerIsPlain(s: string, i: nat)
    requires i < |s|
    ensures !IsUpper(Lower(s)[i]) && (IsSpace(Lower(s)[i]) ==> IsSpace(s[i]))
    ensures s[i] as int < 0x80 ==> Lower(s)[i] as int < 0x80
  {}

  lemma DecodeAssembled(hrp: string, ds: seq<nat>)
    requires PlainHrp(hrp) && AreDigits(ds, 32)
    ensures DecodeSymbols(Assemble(hrp, ds)) == Ok((hrp, ds))
  {
    hide ChecksumDigits, ChecksumHolds, Normal, LastOne;
    var cs := ChecksumDigits(hrp, ds);
    var t := Assemble(hrp, ds);
    NormalAssembled(hrp, ds);
    CharsHaveNoOne(ds + cs);
    LastOneAt(hrp, Chars(ds + cs));
    assert t[..|hrp|] == hrp && t[|hrp| + 1..] == Chars(ds + cs);
    IndicesOfChars(ds + cs);
    ChecksumIff(hrp, ds, cs);
    assert (ds + cs)[..|ds + cs| - 6] == ds;
  }

  /** An accepted string is its human-readable part with its symbols and the one right checksum. */
  lemma AcceptedIsAssembled(s: string)
    requires DecodeSymbols(s).Ok?
    ensures var (hrp, ds) := DecodeSymbols(s).value; Normal(s) == Assemble(hrp, ds)
  {
    hide ChecksumHolds, ChecksumDigits, Normal;
    var t := Normal(s);
    var k := LastOne(t).value;
    var hrp, part := t[..k], t[k + 1..];
    var all := Indices(part).value;
    var n := |all| - 6;
    assert all == all[..n] + all[n..];
    ChecksumIff(hrp, all[..n], all[n..]);
    assert t == hrp + "1" + part;
  }

  lemma HrpNotEmpty(s: string)
    requires DecodeSymbols(s).Ok?
    ensures DecodeSymbols(s).value.0 != ""
  {
    hide Normal, LastOne, Indices, ChecksumHolds, Chars, CHARSET;
  }

  lemma NormalIsPlain(s: string, i: nat)
    requires IsAscii(s) && i < |Normal(s)|
    ensures !IsUpper(Normal(s)[i]) && Normal(s)[i] as int < 0x80 && (i == 0 ==> !IsSpace(Normal(s)[i]))
  {
    hide Lower, IsSpace, IsUpper, StripLeft, StripRight;
    var left := StripLeft(s);
    var core := StripRight(left);
    assert core[i] == left[i] && left[i] == s[|s| - |left| + i];
    LowerIsPlain(core, i);
  }

  lemma DecodedHrpIsPlain(s: string)
    requires DecodeSymbols(s).Ok? && IsAscii(s)
    ensures PlainHrp(DecodeSymbols(s).value.0)
  {
    AcceptedIsAssembled(s);
    HrpNotEmpty(s);
    hide DecodeSymbols, Normal, IsSpace, IsUpper, Chars, ChecksumDigits;
    var hrp, ds := DecodeSymbols(s).value.0, DecodeSymbols(s).value.1;
    assert forall i :: 0 <= i < |hrp| ==> Assemble(hrp, ds)[i] == hrp[i];
    forall i | 0 <= i < |hrp|
      ensures !IsUpper(hrp[i]) && hrp[i] as int < 0x80 && (i == 0 ==> !IsSpace(hrp[i]))
    {
      NormalIsPlain(s, i);
    }
  }

  lemma AssembledAscii(hrp: string, ds: seq<nat>)
    requires IsAscii(hrp) && AreDigits(ds, 32)
    ensures IsAscii(Assemble(hrp, ds))
  {
    hide Assemble, IsSpace, IsUpper;
    forall i | 0 <= i < |Assemble(hrp, ds)|
      ensures Assemble(hrp, ds)[i] as int < 0x80
    {
      AssembledChar(hrp, ds, i);
    }
  }

  /** The decoder undoes the encoder on every payload, for exactly the ASCII human-readable parts
      that are not empty, do not start with a space and hold no capital letter. */
  lemma RoundTrip(hrp: string, payload: bytes)
    requires IsAscii(hrp)
    ensures Decode(Encode(hrp, payload)) == Ok((hrp, payload)) <==> PlainHrp(hrp)
  {
    if PlainHrp(hrp) {
      FivesValue(payload);
      DecodeAssembled(hrp, ToFives(payload));
      EightsOfFives(payload);
    }
    if Decode(Encode(hrp, payload)) == Ok((hrp, payload)) {
      FivesValue(payload);
      AssembledAscii(hrp, ToFives(payload));
      DecodedHrpIsPlain(Encode(hrp, payload));
    }
  }

  lemma AssembleInjective(hrp: string, xs: seq<nat>, ys: seq<nat>)
    requires AreDigits(xs, 32) && AreDigits(ys, 32) && PlainHrp(hrp)
    requires Assemble(hrp, xs) == Assemble(hrp, ys)
    ensures xs == ys
  {
    DecodeAssembled(hrp, xs);
    DecodeAssembled(hrp, ys);
  }

  /** The decoder of ASCII text does not check padding: encoding what it returned gives the string back
      exactly when the bits left over after the last byte are fewer than five and all zero. */
  lemma Reencode(s: string)
    requires IsAscii(s) && Decode(s).Ok?
    ensures var (hrp, payload) := Decode(s).value;
            Encode(hrp, payload) == Normal(s) <==> CleanPadding(DecodeSymbols(s).value.1)
  {
    var (hrp, ds) := DecodeSymbols(s).value;
    AcceptedIsAssembled(s);
    DecodedHrpIsPlain(s);
    PowFacts();
    FivesOfEights(ds);
    FivesValue(ToEights(ds));
    if Assemble(hrp, ToFives(ToEights(ds))) == Assemble(hrp, ds) {
      AssembleInjective(hrp, ToFives(ToEights(ds)), ds);
    }
  }
}
