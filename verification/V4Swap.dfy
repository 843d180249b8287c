/** Uniswap v4 exact-input swap parameters: the layout the source builds with real head lengths,
    and the decoders that accept only that layout. Addresses are numbers below 2^160. */
module V4Swap {
  import opened Wrappers
  import opened Radix
  import opened Bytes
  import opened Abi
  import opened AbiRoundTrip

  // ----- head and tail with real head lengths -----

  function HeadSize(parts: seq<Part>): nat
  {
    if parts == [] then 0 else (if parts[0].dyn then 32 else |parts[0].enc|) + HeadSize(parts[1..])
  }

  function HeadTail(parts: seq<Part>): Result<bytes>
  {
    var h :- Heads(parts, HeadSize(parts));
    Ok(h + Tails(parts))
  }

  /** `_head_tail`: a static entry is copied, a dynamic slot becomes an offset pointer. */
  method HeadTailLoop(parts: seq<Part>) returns (r: Result<bytes>)
    ensures r == HeadTail(parts)
  {
    var off: nat := 0;
    assert parts[0..] == parts;
    for i := 0 to |parts|
      invariant off + HeadSize(parts[i..]) == HeadSize(parts)
    {
      assert parts[i..][0] == parts[i] && parts[i..][1..] == parts[i + 1..];
      off := off + if parts[i].dyn then 32 else |parts[i].enc|;
    }
    assert parts[|parts|..] == [];
    var head: bytes, tail: bytes := [], [];
    ghost var goal := HeadTail(parts);
    assert goal == HeadsThenTails(head, tail, parts, off) by {
      assert goal.Ok? ==> [] + Heads(parts, off).value + ([] + Tails(parts)) == goal.value;
    }
    hide Word, Heads, Tails, HeadsThenTails, HeadTail;
    for i := 0 to |parts|
      invariant goal == HeadsThenTails(head, tail, parts[i..], off)
    {
      var part := parts[i];
      assert parts[i..][0] == part && parts[i..][1..] == parts[i + 1..];
      NextPart(head, tail, parts[i..], off);
      if part.dyn {
        var w := Word(off);
        if w.Err? {
          return Err;
        }
        head := head + w.value;
        tail := tail + part.enc;
        off := off + |part.enc|;
      } else {
        head := head + part.enc;
      }
    }
    NoPartsLeft(head, tail, off);
    return Ok(head + tail);
  }

  /** `_enc_dyn_array`: length, offsets, then the encoded elements. */
  function EncDynArray(items: seq<bytes>): Result<bytes>
  {
    var n :- Word(|items|);
    var body :- Layout(DynParts(items));
    Ok(n + body)
  }

  function DynParts(items: seq<bytes>): (parts: seq<Part>)
    ensures |parts| == |items| && forall i :: 0 <= i < |items| ==> parts[i] == Part(items[i], true)
  {
    seq(|items|, i requires 0 <= i < |items| => Part(items[i], true))
  }

  // ----- words -----

  const UINT160 := 0x1_00000000_00000000_00000000_00000000_00000000
  const UINT128 := 0x1_00000000_00000000_00000000_00000000
  const UINT24 := 0x1_000000
  const INT23 := 0x80_0000

  function ReadUInt(t: bytes, pos: nat, range: nat): (r: Result<nat>)
    ensures r.Ok? ==> r.value < range
  {
    var v :- ReadNat(t, pos);
    if v < range then Ok(v) else Err
  }

  /** Two's complement in a whole word. */
  function SignedWord(i: int): Result<bytes>
  {
    if 0 <= i then Word(i) else if 0 <= i + WordRange() then Word(i + WordRange()) else Err
  }

  predicate IsInt24(i: int) { -INT23 <= i < INT23 }

  function ReadInt24(t: bytes, pos: nat): (r: Result<int>)
    ensures r.Ok? ==> IsInt24(r.value)
  {
    var v :- ReadNat(t, pos);
    var s := if 2 * v >= WordRange() then v - WordRange() else v;
    if IsInt24(s) then Ok(s) else Err
  }

  function ReadBool(t: bytes, pos: nat): Result<bool>
  {
    var v :- ReadUInt(t, pos, 2);
    Ok(v == 1)
  }

  const MAX_HOPS := 8
  const MAX_HOOK_DATA := 4096

  function BytesAt(t: bytes, pos: nat): (r: Result<bytes>)
    ensures r.Ok? ==> |r.value| <= MAX_HOOK_DATA
  {
    var n :- ReadNat(t, pos);
    if n > MAX_HOOK_DATA || pos + 32 + n > |t| then Err else Ok(t[pos + 32..pos + 32 + n])
  }

  // ----- one hop -----

  datatype PathKey = PathKey(currency: nat, fee: nat, tickSpacing: int, hooks: nat, hookData: bytes)

  /** Fields in the range of their types. */
  predicate TypedKey(k: PathKey) {
    k.currency < UINT160 && k.fee < UINT24 && IsInt24(k.tickSpacing) && k.hooks < UINT160
  }

  predicate ValidKey(k: PathKey) { TypedKey(k) && |k.hookData| <= MAX_HOOK_DATA }

  function EncodeKeyHead(k: PathKey): Result<bytes>
  {
    var c :- Word(k.currency);
    var f :- Word(k.fee);
    var s :- SignedWord(k.tickSpacing);
    var h :- Word(k.hooks);
    Ok(c + (f + (s + h)))
  }

  function EncodeKey(k: PathKey): Result<bytes>
  {
    var head :- EncodeKeyHead(k);
    var hd :- EncodeDynamicBytes(k.hookData);
    HeadTail([Part(head, false), Part(hd, true)])
  }

  function DecodeKey(t: bytes, p: nat): (r: Result<PathKey>)
    ensures r.Ok? ==> ValidKey(r.value)
  {
    var c :- ReadUInt(t, p, UINT160);
    var f :- ReadUInt(t, p + 32, UINT24);
    var s :- ReadInt24(t, p + 64);
    var h :- ReadUInt(t, p + 96, UINT160);
    var off :- ReadNat(t, p + 128);
    var hd :- BytesAt(t, p + off);
    Ok(PathKey(c, f, s, h, hd))
  }

  // ----- a path -----

  datatype ExactInput = ExactInput(currencyIn: nat, path: seq<PathKey>, amountIn: nat, minOut: nat)

  predicate ValidExactInput(x: ExactInput) {
    && x.currencyIn < UINT160 && x.amountIn < UINT128 && x.minOut < UINT128
    && 1 <= |x.path| <= MAX_HOPS
    && forall i :: 0 <= i < |x.path| ==> ValidKey(x.path[i])
  }

  predicate TypedExactInput(x: ExactInput) {
    && x.currencyIn < UINT160 && x.amountIn < UINT128 && x.minOut < UINT128
    && forall i :: 0 <= i < |x.path| ==> TypedKey(x.path[i])
  }

  function EncodeKeys(keys: seq<PathKey>): (r: Result<seq<bytes>>)
    ensures r.Ok? ==> |r.value| == |keys|
  {
    if keys == [] then Ok([])
    else
      var first :- EncodeKey(keys[0]);
      var rest :- EncodeKeys(keys[1..]);
      Ok([first] + rest)
  }

  function EncodeExactIn(x: ExactInput): Result<bytes>
  {
    var w :- Word(32);
    var c :- Word(x.currencyIn);
    var items :- EncodeKeys(x.path);
    var path :- EncDynArray(items);
    var a :- Word(x.amountIn);
    var m :- Word(x.minOut);
    var t :- HeadTail([Part(c, false), Part(path, true), Part(a, false), Part(m, false)]);
    Ok(w + t)
  }

  function DecodeKeys(t: bytes, start: nat, i: nat, n: nat): (r: Result<seq<PathKey>>)
    requires i <= n
    ensures r.Ok? ==> |r.value| == n - i && forall j :: 0 <= j < n - i ==> ValidKey(r.value[j])
    decreases n - i
  {
    if i == n then Ok([])
    else
      var off :- ReadNat(t, start + 32 * i);
      var k :- DecodeKey(t, start + off);
      var rest :- DecodeKeys(t, start, i + 1, n);
      Ok([k] + rest)
  }

  /** Reads the fields wherever the offsets point, then insists that the bytes are the
      encoding of those fields. */
  function DecodeExactIn(raw: bytes): Result<ExactInput>
  {
    var first :- ReadNat(raw, 0);
    if first != 32 then Err
    else
      var t := raw[32..];
      var c :- ReadUInt(t, 0, UINT160);
      var off :- ReadNat(t, 32);
      var a :- ReadUInt(t, 64, UINT128);
      var m :- ReadUInt(t, 96, UINT128);
      var n :- ReadNat(t, off);
      if n < 1 || n > MAX_HOPS then Err
      else
        var keys :- DecodeKeys(t, off + 32, 0, n);
        var x := ExactInput(c, keys, a, m);
        if EncodeExactIn(x) == Ok(raw) then Ok(x) else Err
  }

  // ----- a single pool -----

  datatype ExactInSingle = ExactInSingle(
    currency0: nat, currency1: nat, fee: nat, tickSpacing: int, hooks: nat,
    zeroForOne: bool, amountIn: nat, minOut: nat, hookData: bytes)

  predicate TypedSingle(x: ExactInSingle) {
    && x.currency0 < UINT160 && x.currency1 < UINT160 && x.fee < UINT24 && IsInt24(x.tickSpacing)
    && x.hooks < UINT160 && x.amountIn < UINT128 && x.minOut < UINT128
  }

  predicate ValidSingle(x: ExactInSingle) { TypedSingle(x) && |x.hookData| <= MAX_HOOK_DATA }

  function EncodeSingleHead(x: ExactInSingle): Result<bytes>
  {
    var c0 :- Word(x.currency0);
    var c1 :- Word(x.currency1);
    var f :- Word(x.fee);
    var s :- SignedWord(x.tickSpacing);
    var h :- Word(x.hooks);
    var z :- Word(if x.zeroForOne then 1 else 0);
    var a :- Word(x.amountIn);
    var m :- Word(x.minOut);
    Ok(c0 + (c1 + (f + (s + (h + (z + (a + m)))))))
  }

  function EncodeSingle(x: ExactInSingle): Result<bytes>
  {
    var w :- Word(32);
    var head :- EncodeSingleHead(x);
    var hd :- EncodeDynamicBytes(x.hookData);
    var t :- HeadTail([Part(head, false), Part(hd, true)]);
    Ok(w + t)
  }

  function DecodeSingle(raw: bytes): Result<ExactInSingle>
  {
    var first :- ReadNat(raw, 0);
    if first != 32 then Err
    else
      var t := raw[32..];
      var c0 :- ReadUInt(t, 0, UINT160);
      var c1 :- ReadUInt(t, 32, UINT160);
      var f :- ReadUInt(t, 64, UINT24);
      var s :- ReadInt24(t, 96);
      var h :- ReadUInt(t, 128, UINT160);
      var z :- ReadBool(t, 160);
      var a :- ReadUInt(t, 192, UINT128);
      var m :- ReadUInt(t, 224, UINT128);
      var off :- ReadNat(t, 256);
      var hd :- BytesAt(t, off);
      var x := ExactInSingle(c0, c1, f, s, h, z, a, m, hd);
      if EncodeSingle(x) == Ok(raw) then Ok(x) else Err
  }

  // ----- the key loop of the decoder -----

  method V4ExactIn(raw: bytes) returns (r: Result<ExactInput>)
    ensures r == DecodeExactIn(raw)
  {
    hide DecodeExactIn, ReadNat, ReadUInt, DecodeKeys, EncodeExactIn, WordRange, ValidKey, TypedKey;
    ExactInOf(raw);
    var first := ReadNat(raw, 0);
    if first.Err? || first.value != 32 {
      return Err;
    }
    var t := raw[32..];
    var c := ReadUInt(t, 0, UINT160);
    var off := ReadNat(t, 32);
    var a := ReadUInt(t, 64, UINT128);
    var m := ReadUInt(t, 96, UINT128);
    if c.Err? || off.Err? || a.Err? || m.Err? {
      return Err;
    }
    var n := ReadNat(t, off.value);
    if n.Err? || n.value < 1 || n.value > MAX_HOPS {
      return Err;
    }
    var keys := V4Keys(t, off.value + 32, n.value);
    if keys.Err? {
      return Err;
    }
    var x := ExactInput(c.value, keys.value, a.value, m.value);
    var canon := EncodeExactIn(x);
    if canon != Ok(raw) {
      return Err;
    }
    return Ok(x);
  }

  /** The decoder, one failure after another. */
  lemma {:induction false} ExactInOf(raw: bytes)
    ensures ReadNat(raw, 0) != Ok(32) ==> DecodeExactIn(raw) == Err
    ensures ReadNat(raw, 0) == Ok(32) ==>
              |raw| >= 32 && DecodeExactIn(raw) ==
              (var t := raw[32..];
               var c, off, a, m := ReadUInt(t, 0, UINT160), ReadNat(t, 32), ReadUInt(t, 64, UINT128), ReadUInt(t, 96, UINT128);
               if c.Err? || off.Err? || a.Err? || m.Err? then Err
               else
                 (var n := ReadNat(t, off.value);
                  if n.Err? || n.value < 1 || n.value > MAX_HOPS then Err
                  else
                    (var keys := DecodeKeys(t, off.value + 32, 0, n.value);
                     if keys.Err? || EncodeExactIn(ExactInput(c.value, keys.value, a.value, m.value)) != Ok(raw) then Err
                     else Ok(ExactInput(c.value, keys.value, a.value, m.value)))))
  {
    assert ReadNat(raw, 0).Ok? ==> |raw| >= 32;
    hide ReadNat, ReadUInt, DecodeKeys, EncodeExactIn, WordRange, ValidKey;
  }

  method V4Keys(t: bytes, start: nat, n: nat) returns (r: Result<seq<PathKey>>)
    ensures r == DecodeKeys(t, start, 0, n)
  {
    hide *;
    var keys: seq<PathKey> := [];
    ghost var goal := DecodeKeys(t, start, 0, n);
    AllKeysLeft(t, start, n);
    for i := 0 to n
      invariant goal == MoreKeys(keys, DecodeKeys(t, start, i, n))
    {
      NextKey(t, start, i, n, keys);
      var off := ReadNat(t, start + 32 * i);
      if off.Err? {
        return Err;
      }
      var k := DecodeKey(t, start + off.value);
      if k.Err? {
        return Err;
      }
      keys := keys + [k.value];
    }
    NoKeysLeft(t, start, n, keys);
    return Ok(keys);
  }

  ghost function MoreKeys(keys: seq<PathKey>, rest: Result<seq<PathKey>>): Result<seq<PathKey>>
  {
    var more :- rest;
    Ok(keys + more)
  }

  lemma {:induction false} AllKeysLeft(t: bytes, start: nat, n: nat)
    ensures MoreKeys([], DecodeKeys(t, start, 0, n)) == DecodeKeys(t, start, 0, n)
  {
    hide DecodeKeys;
    var goal := DecodeKeys(t, start, 0, n);
    assert goal.Ok? ==> [] + goal.value == goal.value;
  }

  lemma {:induction false} NoKeysLeft(t: bytes, start: nat, n: nat, keys: seq<PathKey>)
    ensures MoreKeys(keys, DecodeKeys(t, start, n, n)) == Ok(keys)
  {
    assert keys + [] == keys;
  }

  lemma {:induction false} NextKey(t: bytes, start: nat, i: nat, n: nat, keys: seq<PathKey>)
    requires i < n
    ensures var off := ReadNat(t, start + 32 * i);
            var k := if off.Err? then Err else DecodeKey(t, start + off.value);
            MoreKeys(keys, DecodeKeys(t, start, i, n)) ==
            if k.Err? then Err else MoreKeys(keys + [k.value], DecodeKeys(t, start, i + 1, n))
  {
    hide ReadNat, DecodeKey;
    var off := ReadNat(t, start + 32 * i);
    var k := if off.Err? then Err else DecodeKey(t, start + off.value);
    var rest := DecodeKeys(t, start, i + 1, n);
    if k.Ok? && rest.Ok? {
      assert keys + ([k.value] + rest.value) == keys + [k.value] + rest.value;
    }
  }

  // ----- reading back what was written -----

  lemma {:induction false} UIntRead(v: nat, w: bytes, t: bytes, pos: nat, range: nat)
    requires Word(v) == Ok(w) && v < range && StandsAt(w, t, pos)
    ensures ReadUInt(t, pos, range) == Ok(v)
  {
    ReadNatAt(v, w, t, pos);
  }

  lemma {:induction false} Int24Fits()
    ensures 4 * INT23 <= WordRange()
  {
    PowMonotone(256, 4, WordSize());
    assert Pow(256, 4) == 256 * (256 * (256 * (256 * Pow(256, 0))));
  }

  lemma {:induction false} Int24Read(i: int, w: bytes, t: bytes, pos: nat)
    requires SignedWord(i) == Ok(w) && IsInt24(i) && StandsAt(w, t, pos)
    ensures |w| == 32 && ReadInt24(t, pos) == Ok(i)
  {
    Int24Fits();
    var v: nat := if 0 <= i then i else i + WordRange();
    WordValue(v, w);
    ReadNatAt(v, w, t, pos);
  }

  lemma {:induction false} BytesRead(raw: bytes, e: bytes, t: bytes, pos: nat)
    requires EncodeDynamicBytes(raw) == Ok(e) && StandsAt(e, t, pos)
    ensures BytesAt(t, pos) == if |raw| <= MAX_HOOK_DATA then Ok(raw) else Err
  {
    hide Word, EncodeDynamicBytes, ReadNat;
    DynamicBytesParts(raw, e);
    var w, z := Word(|raw|).value, ZeroBytes(PadLen(|raw|));
    SplitAt(w, raw + z, t, pos);
    SplitAt(raw, z, t, pos + 32);
    ReadNatAt(|raw|, w, t, pos);
  }

  /** Static words, then one dynamic field. */
  lemma {:induction false} OneDynamic(head: bytes, tail: bytes)
    ensures HeadTail([Part(head, false), Part(tail, true)]) ==
            if Word(|head| + 32).Ok? then Ok(head + (Word(|head| + 32).value + tail)) else Err
  {
    hide Word;
    var off := |head| + 32;
    var last := [Part(tail, true)];
    var parts := [Part(head, false)] + last;
    assert parts == [Part(head, false), Part(tail, true)] && parts[1..] == last && last[1..] == [];
    assert HeadSize([]) == 0 && HeadSize(last) == 32 && HeadSize(parts) == off;
    assert Heads([], off + |tail|) == Ok([]) && Tails([]) == [];
    assert tail + [] == tail && [] + tail == tail;
    assert Tails(last) == tail && Tails(parts) == tail;
    if Word(off).Ok? {
      var w := Word(off).value;
      assert w + [] == w;
      assert Heads(last, off) == Ok(w) && Heads(parts, off) == Ok(head + w);
      assert head + w + tail == head + (w + tail);
    } else {
      assert Heads(last, off).Err? && Heads(parts, off).Err?;
    }
  }

  /** A word, a dynamic field, two more words. */
  lemma {:induction false} DynamicSecond(c: bytes, tail: bytes, a: bytes, m: bytes)
    requires |c| == |a| == |m| == 32
    ensures HeadTail([Part(c, false), Part(tail, true), Part(a, false), Part(m, false)]) ==
            if Word(128).Ok? then Ok(c + (Word(128).value + (a + (m + tail)))) else Err
  {
    hide Word;
    var p4 := [Part(m, false)];
    var p3 := [Part(a, false)] + p4;
    var p2 := [Part(tail, true)] + p3;
    var p1 := [Part(c, false)] + p2;
    assert p1 == [Part(c, false), Part(tail, true), Part(a, false), Part(m, false)];
    assert p1[1..] == p2 && p2[1..] == p3 && p3[1..] == p4 && p4[1..] == [];
    assert HeadSize([]) == 0 && HeadSize(p4) == 32 && HeadSize(p3) == 64 && HeadSize(p2) == 96 && HeadSize(p1) == 128;
    var after := 128 + |tail|;
    assert Heads([], after) == Ok([]) && m + [] == m;
    assert Heads(p4, after) == Ok(m) && Heads(p3, after) == Ok(a + m);
    assert Tails([]) == [] && Tails(p4) == [] + [] == [] && Tails(p3) == [] + [] == [];
    assert tail + [] == tail && [] + tail == tail;
    assert Tails(p2) == tail && Tails(p1) == tail;
    if Word(128).Ok? {
      var w := Word(128).value;
      assert Heads(p2, 128) == Ok(w + (a + m));
      assert Heads(p1, 128) == Ok(c + (w + (a + m)));
      assert c + (w + (a + m)) + tail == c + (w + (a + (m + tail)));
    } else {
      assert Heads(p2, 128).Err? && Heads(p1, 128).Err?;
    }
  }

  lemma {:induction false} KeyHeadRead(k: PathKey, head: bytes, t: bytes, p: nat)
    requires TypedKey(k) && EncodeKeyHead(k) == Ok(head) && StandsAt(head, t, p)
    ensures |head| == 128
    ensures ReadUInt(t, p, UINT160) == Ok(k.currency) && ReadUInt(t, p + 32, UINT24) == Ok(k.fee)
    ensures ReadInt24(t, p + 64) == Ok(k.tickSpacing) && ReadUInt(t, p + 96, UINT160) == Ok(k.hooks)
  {
    hide Word, SignedWord, ReadUInt, ReadInt24, StandsAt, WordRange;
    var c, f, s, h := Word(k.currency).value, Word(k.fee).value, SignedWord(k.tickSpacing).value, Word(k.hooks).value;
    SplitAt(c, f + (s + h), t, p);
    SplitAt(f, s + h, t, p + |c|);
    SplitAt(s, h, t, p + |c| + |f|);
    WordValue(k.currency, c);
    WordValue(k.fee, f);
    WordValue(k.hooks, h);
    UIntRead(k.currency, c, t, p, UINT160);
    UIntRead(k.fee, f, t, p + 32, UINT24);
    Int24Read(k.tickSpacing, s, t, p + 64);
    UIntRead(k.hooks, h, t, p + 96, UINT160);
  }

  lemma {:induction false} KeyParts(k: PathKey, e: bytes)
    requires EncodeKey(k) == Ok(e)
    ensures EncodeKeyHead(k).Ok? && EncodeDynamicBytes(k.hookData).Ok?
    ensures HeadTail([Part(EncodeKeyHead(k).value, false), Part(EncodeDynamicBytes(k.hookData).value, true)]) == Ok(e)
  {}

  lemma {:induction false} KeyFromFields(k: PathKey, t: bytes, p: nat, off: nat)
    requires ReadUInt(t, p, UINT160) == Ok(k.currency) && ReadUInt(t, p + 32, UINT24) == Ok(k.fee)
    requires ReadInt24(t, p + 64) == Ok(k.tickSpacing) && ReadUInt(t, p + 96, UINT160) == Ok(k.hooks)
    requires ReadNat(t, p + 128) == Ok(off)
    requires BytesAt(t, p + off) == if |k.hookData| <= MAX_HOOK_DATA then Ok(k.hookData) else Err
    ensures DecodeKey(t, p) == if |k.hookData| <= MAX_HOOK_DATA then Ok(k) else Err
  {
    hide ReadUInt, ReadInt24, ReadNat, BytesAt;
  }

  lemma {:induction false} KeyDecoded(k: PathKey, e: bytes, t: bytes, p: nat)
    requires TypedKey(k) && EncodeKey(k) == Ok(e) && StandsAt(e, t, p)
    ensures DecodeKey(t, p) == if |k.hookData| <= MAX_HOOK_DATA then Ok(k) else Err
  {
    KeyParts(k, e);
    hide *;
    var head, hd := EncodeKeyHead(k).value, EncodeDynamicBytes(k.hookData).value;
    OneDynamic(head, hd);
    var w := Word(|head| + 32).value;
    SplitAt(head, w + hd, t, p);
    SplitAt(w, hd, t, p + |head|);
    KeyHeadRead(k, head, t, p);
    WordValue(160, w);
    ReadNatAt(160, w, t, p + 128);
    BytesRead(k.hookData, hd, t, p + 160);
    KeyFromFields(k, t, p, 160);
  }

  // ----- paths -----

  ghost predicate TypedKeys(keys: seq<PathKey>) {
    forall i :: 0 <= i < |keys| ==> TypedKey(keys[i])
  }

  predicate ShortHooks(keys: seq<PathKey>) {
    forall i :: 0 <= i < |keys| ==> |keys[i].hookData| <= MAX_HOOK_DATA
  }

  lemma {:induction false} KeysStep(keys: seq<PathKey>, items: seq<bytes>)
    requires keys != [] && TypedKeys(keys) && EncodeKeys(keys) == Ok(items)
    ensures items != [] && EncodeKey(keys[0]) == Ok(items[0]) && EncodeKeys(keys[1..]) == Ok(items[1..])
    ensures TypedKey(keys[0]) && TypedKeys(keys[1..])
    ensures ShortHooks(keys) <==> |keys[0].hookData| <= MAX_HOOK_DATA && ShortHooks(keys[1..])
    ensures DynParts(items)[1..] == DynParts(items[1..]) && DynParts(items)[0] == Part(items[0], true)
  {
    assert items[1..] == EncodeKeys(keys[1..]).value;
    assert keys == [keys[0]] + keys[1..];
  }

  lemma {:induction false} DecodeKeysStep(t: bytes, start: nat, i: nat, n: nat, off: nat, k: PathKey, rest: seq<PathKey>,
                                          here: bool, later: bool)
    requires i < n && ReadNat(t, start + 32 * i) == Ok(off) && DecodeKey(t, start + off) == if here then Ok(k) else Err
    requires DecodeKeys(t, start, i + 1, n) == if later then Ok(rest) else Err
    ensures DecodeKeys(t, start, i, n) == if here && later then Ok([k] + rest) else Err
  {
    hide ReadNat, DecodeKey;
  }

  lemma {:induction false} NoKeys(keys: seq<PathKey>, t: bytes, start: nat, i: nat, n: nat)
    requires keys == [] && i == n
    ensures DecodeKeys(t, start, i, n) == Ok(keys) && ShortHooks(keys)
  {}

  lemma {:induction false} KeysDecoded(keys: seq<PathKey>, items: seq<bytes>, h: bytes, t: bytes,
                                       start: nat, i: nat, n: nat, offset: nat)
    requires TypedKeys(keys) && EncodeKeys(keys) == Ok(items) && i + |keys| == n
    requires Heads(DynParts(items), offset) == Ok(h)
    requires StandsAt(h, t, start + 32 * i) && StandsAt(Tails(DynParts(items)), t, start + offset)
    ensures DecodeKeys(t, start, i, n) == if ShortHooks(keys) then Ok(keys) else Err
    decreases |keys|
  {
    hide *;
    if keys == [] {
      NoKeys(keys, t, start, i, n);
    } else {
      KeysStep(keys, items);
      var parts, e := DynParts(items), items[0];
      HeadsStepDyn(parts, offset, h);
      var w, rest := Word(offset).value, Heads(parts[1..], offset + |e|).value;
      WordValue(offset, w);
      SplitAt(w, rest, t, start + 32 * i);
      SplitAt(e, Tails(parts[1..]), t, start + offset);
      ReadNatAt(offset, w, t, start + 32 * i);
      KeyDecoded(keys[0], e, t, start + offset);
      KeysDecoded(keys[1..], items[1..], rest, t, start, i + 1, n, offset + |e|);
      DecodeKeysStep(t, start, i, n, offset, keys[0], keys[1..], |keys[0].hookData| <= MAX_HOOK_DATA, ShortHooks(keys[1..]));
      assert keys == [keys[0]] + keys[1..];
    }
  }

  lemma {:induction false} DynArrayParts(items: seq<bytes>, e: bytes)
    requires EncDynArray(items) == Ok(e)
    ensures Word(|items|).Ok? && Layout(DynParts(items)).Ok?
    ensures e == Word(|items|).value + Layout(DynParts(items)).value
  {}

  lemma {:induction false} KeysLength(keys: seq<PathKey>, items: seq<bytes>)
    requires EncodeKeys(keys) == Ok(items)
    ensures |items| == |keys| == |DynParts(items)|
    ensures forall i :: 0 <= i < |DynParts(items)| ==> DynParts(items)[i].dyn
  {}

  lemma {:induction false} PathDecoded(keys: seq<PathKey>, items: seq<bytes>, e: bytes, t: bytes, off: nat)
    requires TypedKeys(keys) && EncodeKeys(keys) == Ok(items) && EncDynArray(items) == Ok(e)
    requires StandsAt(e, t, off)
    ensures ReadNat(t, off) == Ok(|keys|)
    ensures DecodeKeys(t, off + 32, 0, |keys|) == if ShortHooks(keys) then Ok(keys) else Err
  {
    hide *;
    var n, parts := |keys|, DynParts(items);
    KeysLength(keys, items);
    DynArrayParts(items, e);
    var w, body := Word(n).value, Layout(parts).value;
    LayoutParts(parts, body);
    var h := Heads(parts, 32 * n).value;
    HeadsLength(parts, 32 * n);
    WordValue(n, w);
    SplitAt(w, body, t, off);
    ReadNatAt(n, w, t, off);
    SplitAt(h, Tails(parts), t, off + 32);
    KeysDecoded(keys, items, h, t, off + 32, 0, n, 32 * n);
  }

  lemma {:induction false} ExactInParts(x: ExactInput, raw: bytes)
    requires EncodeExactIn(x) == Ok(raw)
    ensures Word(32).Ok? && Word(x.currencyIn).Ok? && Word(x.amountIn).Ok? && Word(x.minOut).Ok?
    ensures EncodeKeys(x.path).Ok? && EncDynArray(EncodeKeys(x.path).value).Ok?
    ensures var t := HeadTail([Part(Word(x.currencyIn).value, false), Part(EncDynArray(EncodeKeys(x.path).value).value, true),
                               Part(Word(x.amountIn).value, false), Part(Word(x.minOut).value, false)]);
            t.Ok? && raw == Word(32).value + t.value
  {}

  /** What a decoder asks of a path beyond the types of its fields. */
  predicate Bounded(path: seq<PathKey>) { 1 <= |path| <= MAX_HOPS && ShortHooks(path) }

  lemma {:induction false} TypedExactInFacts(x: ExactInput)
    requires TypedExactInput(x)
    ensures x.currencyIn < UINT160 && x.amountIn < UINT128 && x.minOut < UINT128 && TypedKeys(x.path)
  {}

  lemma {:induction false} ValidIsBounded(x: ExactInput)
    ensures ValidExactInput(x) <==> TypedExactInput(x) && Bounded(x.path)
  {
    hide TypedKey;
  }

  lemma {:induction false} ExactInFromFields(x: ExactInput, raw: bytes, off: nat)
    requires ReadNat(raw, 0) == Ok(32) && |raw| >= 32
    requires ReadUInt(raw[32..], 0, UINT160) == Ok(x.currencyIn) && ReadNat(raw[32..], 32) == Ok(off)
    requires ReadUInt(raw[32..], 64, UINT128) == Ok(x.amountIn) && ReadUInt(raw[32..], 96, UINT128) == Ok(x.minOut)
    requires ReadNat(raw[32..], off) == Ok(|x.path|)
    requires DecodeKeys(raw[32..], off + 32, 0, |x.path|) == if ShortHooks(x.path) then Ok(x.path) else Err
    requires EncodeExactIn(x) == Ok(raw)
    ensures DecodeExactIn(raw) == if Bounded(x.path) then Ok(x) else Err
  {
    hide ReadNat, ReadUInt, DecodeKeys, EncodeExactIn, ShortHooks;
  }

  lemma {:induction false} WholeStands(t: bytes, raw: bytes, w: bytes)
    requires |w| == 32 && raw == w + t
    ensures |raw| >= 32 && raw[32..] == t && StandsAt(t, t, 0) && StandsAt(w, raw, 0)
  {}

  lemma {:induction false} FourWordsStand(c: bytes, w: bytes, a: bytes, m: bytes, rest: bytes, t: bytes)
    requires |c| == |w| == |a| == |m| == 32 && t == c + (w + (a + (m + rest)))
    ensures StandsAt(c, t, 0) && StandsAt(w, t, 32) && StandsAt(a, t, 64) && StandsAt(m, t, 96) && StandsAt(rest, t, 128)
  {
    StandsWhole(t);
    hide StandsAt;
    SplitAt(c, w + (a + (m + rest)), t, 0);
    SplitAt(w, a + (m + rest), t, 32);
    SplitAt(a, m + rest, t, 64);
    SplitAt(m, rest, t, 96);
  }

  lemma {:induction false} StandsWhole(t: bytes)
    ensures StandsAt(t, t, 0)
  {}

  /** The encoding of a path in the range of its types is accepted exactly within the two bounds. */
  lemma {:induction false} ExactInAccepted(x: ExactInput, raw: bytes)
    requires TypedExactInput(x) && EncodeExactIn(x) == Ok(raw)
    ensures DecodeExactIn(raw) == if Bounded(x.path) then Ok(x) else Err
  {
    hide *;
    TypedExactInFacts(x);
    ExactInParts(x, raw);
    var c, a, m := Word(x.currencyIn).value, Word(x.amountIn).value, Word(x.minOut).value;
    var items := EncodeKeys(x.path).value;
    var path := EncDynArray(items).value;
    WordValue(32, Word(32).value);
    WordValue(x.currencyIn, c);
    WordValue(x.amountIn, a);
    WordValue(x.minOut, m);
    DynamicSecond(c, path, a, m);
    var w := Word(128).value;
    WordValue(128, w);
    var t := c + (w + (a + (m + path)));
    WholeStands(t, raw, Word(32).value);
    ReadNatAt(32, Word(32).value, raw, 0);
    FourWordsStand(c, w, a, m, path, t);
    UIntRead(x.currencyIn, c, t, 0, UINT160);
    ReadNatAt(128, w, t, 32);
    UIntRead(x.amountIn, a, t, 64, UINT128);
    UIntRead(x.minOut, m, t, 96, UINT128);
    PathDecoded(x.path, items, path, t, 128);
    ExactInFromFields(x, raw, 128);
  }

  lemma {:induction false} ExactInRefused(x: ExactInput, raw: bytes)
    requires DecodeExactIn(raw) == Ok(x)
    ensures ValidExactInput(x) && EncodeExactIn(x) == Ok(raw)
  {
    hide ReadNat, EncodeExactIn;
  }

  /** The path decoder accepts exactly the encodings of paths of 1 to 8 hops in range, and returns
      the path that was encoded. */
  lemma {:induction false} ExactInCanonical(raw: bytes, x: ExactInput)
    ensures DecodeExactIn(raw) == Ok(x) <==> ValidExactInput(x) && EncodeExactIn(x) == Ok(raw)
  {
    hide DecodeExactIn, EncodeExactIn, ValidExactInput;
    if DecodeExactIn(raw) == Ok(x) {
      ExactInRefused(x, raw);
    }
    if ValidExactInput(x) && EncodeExactIn(x) == Ok(raw) {
      ValidIsBounded(x);
      ExactInAccepted(x, raw);
    }
  }

  /** The nested-offset encoding of a path is injective. */
  lemma {:induction false} ExactInInjective(x: ExactInput, y: ExactInput)
    requires ValidExactInput(x) && ValidExactInput(y)
    requires EncodeExactIn(x).Ok? && EncodeExactIn(x) == EncodeExactIn(y)
    ensures x == y
  {
    hide EncodeExactIn, ValidExactInput, TypedExactInput, Bounded, DecodeExactIn;
    ValidIsBounded(x);
    ValidIsBounded(y);
    ExactInAccepted(x, EncodeExactIn(x).value);
    ExactInAccepted(y, EncodeExactIn(y).value);
  }

  // ----- single pools -----

  lemma {:induction false} SingleHeadRead(x: ExactInSingle, head: bytes, t: bytes)
    requires TypedSingle(x) && EncodeSingleHead(x) == Ok(head) && StandsAt(head, t, 0)
    ensures |head| == 256
    ensures ReadUInt(t, 0, UINT160) == Ok(x.currency0) && ReadUInt(t, 32, UINT160) == Ok(x.currency1)
    ensures ReadUInt(t, 64, UINT24) == Ok(x.fee) && ReadInt24(t, 96) == Ok(x.tickSpacing)
    ensures ReadUInt(t, 128, UINT160) == Ok(x.hooks) && ReadBool(t, 160) == Ok(x.zeroForOne)
    ensures ReadUInt(t, 192, UINT128) == Ok(x.amountIn) && ReadUInt(t, 224, UINT128) == Ok(x.minOut)
  {
    hide Word, SignedWord, ReadUInt, ReadInt24, StandsAt, WordRange;
    var b := if x.zeroForOne then 1 else 0;
    var c0, c1, f, s := Word(x.currency0).value, Word(x.currency1).value, Word(x.fee).value, SignedWord(x.tickSpacing).value;
    var h, z, a, m := Word(x.hooks).value, Word(b).value, Word(x.amountIn).value, Word(x.minOut).value;
    WordValue(x.currency0, c0);
    WordValue(x.currency1, c1);
    WordValue(x.fee, f);
    WordValue(x.hooks, h);
    WordValue(b, z);
    WordValue(x.amountIn, a);
    WordValue(x.minOut, m);
    var rest4 := h + (z + (a + m));
    SplitAt(c0, c1 + (f + (s + rest4)), t, 0);
    SplitAt(c1, f + (s + rest4), t, 32);
    SplitAt(f, s + rest4, t, 64);
    SplitAt(s, rest4, t, 96);
    Int24Read(x.tickSpacing, s, t, 96);
    SplitAt(h, z + (a + m), t, 128);
    SplitAt(z, a + m, t, 160);
    SplitAt(a, m, t, 192);
    UIntRead(x.currency0, c0, t, 0, UINT160);
    UIntRead(x.currency1, c1, t, 32, UINT160);
    UIntRead(x.fee, f, t, 64, UINT24);
    UIntRead(x.hooks, h, t, 128, UINT160);
    UIntRead(b, z, t, 160, 2);
    UIntRead(x.amountIn, a, t, 192, UINT128);
    UIntRead(x.minOut, m, t, 224, UINT128);
  }

  lemma {:induction false} SingleParts(x: ExactInSingle, raw: bytes)
    requires EncodeSingle(x) == Ok(raw)
    ensures Word(32).Ok? && EncodeSingleHead(x).Ok? && EncodeDynamicBytes(x.hookData).Ok?
    ensures var t := HeadTail([Part(EncodeSingleHead(x).value, false), Part(EncodeDynamicBytes(x.hookData).value, true)]);
            t.Ok? && raw == Word(32).value + t.value
  {}

  lemma {:induction false} SingleFromFields(x: ExactInSingle, raw: bytes, t: bytes, off: nat)
    requires ReadNat(raw, 0) == Ok(32) && |raw| >= 32 && raw[32..] == t
    requires ReadUInt(t, 0, UINT160) == Ok(x.currency0) && ReadUInt(t, 32, UINT160) == Ok(x.currency1)
    requires ReadUInt(t, 64, UINT24) == Ok(x.fee) && ReadInt24(t, 96) == Ok(x.tickSpacing)
    requires ReadUInt(t, 128, UINT160) == Ok(x.hooks) && ReadBool(t, 160) == Ok(x.zeroForOne)
    requires ReadUInt(t, 192, UINT128) == Ok(x.amountIn) && ReadUInt(t, 224, UINT128) == Ok(x.minOut)
    requires ReadNat(t, 256) == Ok(off) && BytesAt(t, off) == if |x.hookData| <= MAX_HOOK_DATA then Ok(x.hookData) else Err
    requires EncodeSingle(x) == Ok(raw)
    ensures DecodeSingle(raw) == if |x.hookData| <= MAX_HOOK_DATA then Ok(x) else Err
  {
    hide ReadNat, ReadUInt, ReadInt24, ReadBool, BytesAt, EncodeSingle;
  }

  lemma {:induction false} ThreePartsStand(head: bytes, w: bytes, rest: bytes, t: bytes)
    requires |w| == 32 && t == head + (w + rest)
    ensures StandsAt(head, t, 0) && StandsAt(w, t, |head|) && StandsAt(rest, t, |head| + 32)
  {
    StandsWhole(t);
    hide StandsAt;
    SplitAt(head, w + rest, t, 0);
    SplitAt(w, rest, t, |head|);
  }

  /** The encoding of a swap in the range of its types is accepted exactly with short hook data. */
  lemma {:induction false} SingleAccepted(x: ExactInSingle, raw: bytes)
    requires TypedSingle(x) && EncodeSingle(x) == Ok(raw)
    ensures DecodeSingle(raw) == if |x.hookData| <= MAX_HOOK_DATA then Ok(x) else Err
  {
    SingleParts(x, raw);
    hide *;
    var head, hd := EncodeSingleHead(x).value, EncodeDynamicBytes(x.hookData).value;
    OneDynamic(head, hd);
    var w := Word(|head| + 32).value;
    var t := head + (w + hd);
    WordValue(32, Word(32).value);
    WholeStands(t, raw, Word(32).value);
    ReadNatAt(32, Word(32).value, raw, 0);
    ThreePartsStand(head, w, hd, t);
    SingleHeadRead(x, head, t);
    WordValue(288, w);
    ReadNatAt(288, w, t, 256);
    BytesRead(x.hookData, hd, t, 288);
    SingleFromFields(x, raw, t, 288);
  }

  lemma {:induction false} SingleRefused(x: ExactInSingle, raw: bytes)
    requires DecodeSingle(raw) == Ok(x)
    ensures ValidSingle(x) && EncodeSingle(x) == Ok(raw)
  {
    hide ReadNat, EncodeSingle;
  }

  /** The single-pool decoder accepts exactly the encodings of in-range swaps. */
  lemma {:induction false} SingleCanonical(raw: bytes, x: ExactInSingle)
    ensures DecodeSingle(raw) == Ok(x) <==> ValidSingle(x) && EncodeSingle(x) == Ok(raw)
  {
    hide DecodeSingle, EncodeSingle, TypedSingle;
    if DecodeSingle(raw) == Ok(x) {
      SingleRefused(x, raw);
    }
    if ValidSingle(x) && EncodeSingle(x) == Ok(raw) {
      SingleAccepted(x, raw);
    }
  }
}
