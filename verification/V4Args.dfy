/** The parameters of a v4 swap as Solidity encodes their struct: one dynamic tuple of typed arguments.
    That is the layout the source builds by hand, and so the one its decoders accept. */
module V4Args {
  import opened Wrappers
  import opened Radix
  import opened Bytes
  import opened Abi
  import opened AbiRoundTrip
  import opened V4Swap
  import opened LpCalldata
  import opened LpBuilders
  import CallMeaning
  import BitGroups

  predicate IsAddress(n: nat) { n < Pow(256, 20) }

  /** An address, given as its number. */
  function Addr(n: nat): Val { VBytes(ToBytes(n, 20)) }

  lemma {:induction false} AddrWord(n: nat)
    requires IsAddress(n)
    ensures n < UINT160 && BigEndian(ToBytes(n, 20)) == n
    ensures EncodeBase(Address, Addr(n)) == Word(n)
  {
    CallMeaning.AddressRange();
    BigEndianToBytes(n, 20);
    var w := ZeroBytes(12) + ToBytes(n, 20);
    ValueConcat(ZeroBytes(12), ToBytes(n, 20), 256);
    CallMeaning.ZerosValue(12);
    PowMonotone(256, 20, WordSize());
    ToBytesBigEndian(w);
    hide Pow, ToBytes, Value;
  }

  lemma {:induction false} TypeRanges()
    ensures Pow(2, 24) == UINT24 && Pow(2, 23) == INT23 && Pow(2, 128) == UINT128
  {
    BitGroups.PowFacts();
    hide Pow;
    PowAdd(2, 8, 8);
    PowAdd(2, 16, 8);
    PowAdd(2, 8, 15);
    PowAdd(2, 8, 7);
    PowAdd(2, 4, 3);
    PowAdd(2, 16, 16);
    PowAdd(2, 32, 32);
    PowAdd(2, 64, 64);
    assert Pow(2, 7) == 128 && Pow(2, 15) == 0x8000 && Pow(2, 16) == 0x1_0000 && Pow(2, 32) == 0x1_0000_0000;
  }

  /** One dynamic tuple as the only argument. */
  function OneTuple(e: bytes): Result<bytes> { Layout([Part(e, true)]) }

  lemma {:induction false} OneTupleIs(e: bytes)
    ensures OneTuple(e) == if Word(32).Ok? then Ok(Word(32).value + e) else Err
  {
    hide Word;
    var parts := [Part(e, true)];
    assert parts[1..] == [] && Heads([], 32 + |e|) == Ok([]) && Tails([]) == [] && e + [] == e;
    assert Word(32).Ok? ==> Word(32).value + [] == Word(32).value;
  }

  // ----- a single pool -----

  const SINGLE_HEAD: seq<AbiType> :=
    [Base(Address), Base(Address), Base(UInt(24)), Base(Int(24)), Base(Address), Base(Bool), Base(UInt(128)), Base(UInt(128))]

  function SingleHead(x: ExactInSingle): seq<Val> {
    [Addr(x.currency0), Addr(x.currency1), VInt(x.fee), VInt(x.tickSpacing), Addr(x.hooks), VBool(x.zeroForOne),
     VInt(x.amountIn), VInt(x.minOut)]
  }

  /** `abi.encode` of the struct: pool key, direction, amount, minimum and hook data. */
  function SingleInput(x: ExactInSingle): Result<bytes>
  {
    if !(IsAddress(x.currency0) && IsAddress(x.currency1) && IsAddress(x.hooks)) then Err
    else
      var e :- EncodeArgs(SINGLE_HEAD + [Base(DynBytes)], SingleHead(x) + [VBytes(x.hookData)]);
      OneTuple(e)
  }

  // ----- a path -----

  const KEY_HEAD: seq<AbiType> := [Base(Address), Base(UInt(24)), Base(Int(24)), Base(Address)]

  function KeyHead(k: PathKey): seq<Val> { [Addr(k.currency), VInt(k.fee), VInt(k.tickSpacing), Addr(k.hooks)] }

  function KeyArgs(k: PathKey): Result<bytes>
  {
    if !(IsAddress(k.currency) && IsAddress(k.hooks)) then Err
    else EncodeArgs(KEY_HEAD + [Base(DynBytes)], KeyHead(k) + [VBytes(k.hookData)])
  }

  function KeysArgs(keys: seq<PathKey>): (r: Result<seq<bytes>>)
    ensures r.Ok? ==> |r.value| == |keys|
  {
    if keys == [] then Ok([])
    else
      var first :- KeyArgs(keys[0]);
      var rest :- KeysArgs(keys[1..]);
      Ok([first] + rest)
  }

  /** `abi.encode` of the struct: currency in, array of path keys, amount and minimum. */
  function PathInput(x: ExactInput): Result<bytes>
  {
    if !IsAddress(x.currencyIn) then Err
    else
      var c :- EncodeBase(Address, Addr(x.currencyIn));
      var keys :- KeysArgs(x.path);
      var n :- Word(|keys|);
      var body :- Layout(DynParts(keys));
      var a :- EncodeBase(UInt(128), VInt(x.amountIn));
      var m :- EncodeBase(UInt(128), VInt(x.minOut));
      var e :- Layout([Part(c, false), Part(n + body, true), Part(a, false), Part(m, false)]);
      OneTuple(e)
  }

  // ----- both layouts are one -----

  lemma {:induction false} TupleStep(types: seq<AbiType>, vals: seq<Val>, k: nat, e: bytes, rest: bytes)
    requires k < |types| == |vals| && EncodeValue(types[k], vals[k]) == Ok(e)
    requires Tuple(types[k + 1..], vals[k + 1..]) == Ok(rest)
    ensures Tuple(types[k..], vals[k..]) == Ok(e + rest)
  {
    hide EncodeValue;
    assert types[k..][1..] == types[k + 1..] && vals[k..][1..] == vals[k + 1..];
  }

  lemma {:induction false} TupleEnd(types: seq<AbiType>, vals: seq<Val>)
    requires |types| == |vals|
    ensures Tuple(types[|types|..], vals[|vals|..]) == Ok([]) && types[0..] == types && vals[0..] == vals
  {}

  /** Static words and one byte string, by the general encoder and by real head lengths. */
  lemma {:induction false} WordsThenBytes(types: seq<AbiType>, vals: seq<Val>, raw: bytes, e: bytes) returns (head: bytes)
    requires |types| == |vals| && AllStatic(types)
    requires EncodeArgs(types + [Base(DynBytes)], vals + [VBytes(raw)]) == Ok(e)
    ensures AllFit(types, vals) && Tuple(types, vals) == Ok(head) && EncodeDynamicBytes(raw).Ok?
    ensures HeadTail([Part(head, false), Part(EncodeDynamicBytes(raw).value, true)]) == Ok(e)
  {
    hide *;
    var all, values := types + [Base(DynBytes)], vals + [VBytes(raw)];
    StaticThenBytes(types);
    StructIsArgs(all, values);
    var parts := EncodedArgs(all, values);
    PartsFit(all, values);
    FitApart(types, vals, raw);
    TupleFits(types, vals);
    head := Tuple(types, vals).value;
    var tail := BytesPart(raw);
    JoinedStruct(types, vals, [Base(DynBytes)], [VBytes(raw)], head, [Part(tail, true)]);
    assert [Part(head, false)] + [Part(tail, true)] == [Part(head, false), Part(tail, true)];
  }

  lemma StaticThenBytes(types: seq<AbiType>)
    requires AllStatic(types)
    ensures AllBase(types) && AllBase(types + [Base(DynBytes)])
  {}

  lemma FitApart(types: seq<AbiType>, vals: seq<Val>, raw: bytes)
    requires |types| == |vals| && AllBase(types) && AllBase(types + [Base(DynBytes)])
    requires AllFit(types + [Base(DynBytes)], vals + [VBytes(raw)])
    ensures AllFit(types, vals) && |raw| < WordRange()
  {
    hide WordRange;
    var all, values := types + [Base(DynBytes)], vals + [VBytes(raw)];
    var n := |types|;
    assert Fits(all[n], values[n]);
    hide Fits;
    forall i | 0 <= i < n
      ensures Fits(types[i], vals[i])
    {
      assert Fits(all[i], values[i]);
    }
  }

  lemma {:induction false} BytesPart(raw: bytes) returns (tail: bytes)
    requires |raw| < WordRange()
    ensures EncodeDynamicBytes(raw) == Ok(tail) && EncodeParts([Base(DynBytes)], [VBytes(raw)]) == Ok([Part(tail, true)])
  {
    hide WordRange;
    tail := EncodeDynamicBytes(raw).value;
    hide EncodeDynamicBytes;
    assert EncodeValue(Base(DynBytes), VBytes(raw)) == Ok(tail);
    assert EncodeParts([], []) == Ok([]);
    assert [Base(DynBytes)][1..] == [] && [VBytes(raw)][1..] == [] && [Part(tail, true)] + [] == [Part(tail, true)];
  }

  lemma {:induction false} TypedWord(bits: nat, n: nat)
    requires 8 <= bits <= 256 && n < Pow(2, bits)
    ensures EncodeValue(Base(UInt(bits)), VInt(n)) == Word(n) && Word(n).Ok?
  {
    BitsFitWord(bits);
    hide Pow, WordRange;
  }

  lemma {:induction false} SignedIs(i: int)
    requires IsInt24(i)
    ensures EncodeValue(Base(Int(24)), VInt(i)) == SignedWord(i) && SignedWord(i).Ok?
  {
    TypeRanges();
    Int24Fits();
    hide Pow, WordRange;
  }

  lemma {:induction false} FlagIs(b: bool)
    ensures EncodeValue(Base(Bool), VBool(b)) == Word(if b then 1 else 0) && Word(if b then 1 else 0).Ok?
  {
    SmallWord(1);
    SmallWord(0);
    hide WordRange, ToBytes;
  }

  lemma {:induction false} AddrIs(n: nat)
    requires IsAddress(n)
    ensures EncodeValue(Base(Address), Addr(n)) == Word(n) && Word(n).Ok? && n < UINT160
  {
    AddrWord(n);
    hide Pow, ToBytes;
  }

  lemma {:induction false} KeyTyped(k: PathKey)
    requires AllStatic(KEY_HEAD) && |KEY_HEAD| == |KeyHead(k)| && AllFit(KEY_HEAD, KeyHead(k))
    requires IsAddress(k.currency) && IsAddress(k.hooks)
    ensures TypedKey(k)
  {
    TypeRanges();
    AddrIs(k.currency);
    AddrIs(k.hooks);
    hide Pow, ToBytes;
    assert Fits(KEY_HEAD[1], KeyHead(k)[1]) && Fits(KEY_HEAD[2], KeyHead(k)[2]);
  }

  lemma {:induction false} KeyTuple(k: PathKey, head: bytes)
    requires TypedKey(k) && IsAddress(k.currency) && IsAddress(k.hooks)
    requires |KEY_HEAD| == |KeyHead(k)| && Tuple(KEY_HEAD, KeyHead(k)) == Ok(head)
    ensures EncodeKeyHead(k) == Ok(head)
  {
    var ts, vs := KEY_HEAD, KeyHead(k);
    TypeRanges();
    AddrIs(k.currency);
    TypedWord(24, k.fee);
    SignedIs(k.tickSpacing);
    AddrIs(k.hooks);
    hide Word, SignedWord, EncodeValue, Tuple, Addr, Pow;
    var c, f, s, h := Word(k.currency).value, Word(k.fee).value, SignedWord(k.tickSpacing).value, Word(k.hooks).value;
    TupleEnd(ts, vs);
    TupleStep(ts, vs, 3, h, []);
    TupleStep(ts, vs, 2, s, h + []);
    TupleStep(ts, vs, 1, f, s + (h + []));
    TupleStep(ts, vs, 0, c, f + (s + (h + [])));
    assert h + [] == h;
  }

  lemma HeadTypes()
    ensures AllStatic(KEY_HEAD) && |KEY_HEAD| == 4 && AllStatic(SINGLE_HEAD) && |SINGLE_HEAD| == 8
  {}

  lemma {:induction false} KeyIsArgs(k: PathKey, e: bytes)
    requires KeyArgs(k) == Ok(e)
    ensures TypedKey(k) && EncodeKey(k) == Ok(e)
  {
    HeadTypes();
    hide TypedKey, EncodeArgs, EncodeKeyHead, HeadTail, Tuple, AllFit, AllStatic, EncodeDynamicBytes, IsAddress;
    var head := WordsThenBytes(KEY_HEAD, KeyHead(k), k.hookData, e);
    KeyTyped(k);
    KeyTuple(k, head);
  }

  lemma {:induction false} KeysAreArgs(keys: seq<PathKey>, items: seq<bytes>)
    requires KeysArgs(keys) == Ok(items)
    ensures EncodeKeys(keys) == Ok(items) && forall i :: 0 <= i < |keys| ==> TypedKey(keys[i])
    decreases |keys|
  {
    hide KeyArgs, EncodeKey, TypedKey;
    if keys != [] {
      KeyIsArgs(keys[0], items[0]);
      KeysAreArgs(keys[1..], KeysArgs(keys[1..]).value);
      assert keys == [keys[0]] + keys[1..];
    }
  }

  lemma {:induction false} FourHeads(c: bytes, p: bytes, a: bytes, m: bytes)
    requires |c| == |a| == |m| == 32
    ensures var parts := [Part(c, false), Part(p, true), Part(a, false), Part(m, false)]; HeadTail(parts) == Layout(parts)
  {
    var parts := [Part(c, false), Part(p, true), Part(a, false), Part(m, false)];
    var p2 := parts[1..];
    var p3 := p2[1..];
    assert p3[1..] == [Part(m, false)] && p3[1..][1..] == [] && HeadSize([]) == 0;
    assert HeadSize(p3[1..]) == 32 && HeadSize(p3) == 64 && HeadSize(p2) == 96 && HeadSize(parts) == 128;
    hide Heads, Tails, HeadSize;
  }

  /** An encoded path struct is in the range of its types, and is the layout the source builds. */
  lemma {:induction false} PathIsArgs(x: ExactInput, raw: bytes)
    requires PathInput(x) == Ok(raw)
    ensures TypedExactInput(x) && EncodeExactIn(x) == Ok(raw)
  {
    TypeRanges();
    AddrIs(x.currencyIn);
    hide IsAddress, Addr, Word, KeysArgs, EncodeKeys, Layout, HeadTail, TypedKey, Pow;
    assert x.amountIn < Pow(2, 128) && x.minOut < Pow(2, 128);
    TypedWord(128, x.amountIn);
    TypedWord(128, x.minOut);
    hide EncodeBase;
    WordLength(x.currencyIn);
    WordLength(x.amountIn);
    WordLength(x.minOut);
    var keys := KeysArgs(x.path).value;
    KeysAreArgs(x.path, keys);
    var c, a, m := Word(x.currencyIn).value, Word(x.amountIn).value, Word(x.minOut).value;
    var p := Word(|keys|).value + Layout(DynParts(keys)).value;
    FourHeads(c, p, a, m);
    OneTupleIs(HeadTail([Part(c, false), Part(p, true), Part(a, false), Part(m, false)]).value);
  }

  lemma {:induction false} WordLength(n: nat)
    requires Word(n).Ok?
    ensures |Word(n).value| == 32
  {}

  lemma {:induction false} SingleTyped(x: ExactInSingle)
    requires AllStatic(SINGLE_HEAD) && |SINGLE_HEAD| == |SingleHead(x)| && AllFit(SINGLE_HEAD, SingleHead(x))
    requires IsAddress(x.currency0) && IsAddress(x.currency1) && IsAddress(x.hooks)
    ensures TypedSingle(x)
  {
    TypeRanges();
    AddrIs(x.currency0);
    AddrIs(x.currency1);
    AddrIs(x.hooks);
    hide Pow, ToBytes;
    assert Fits(SINGLE_HEAD[2], SingleHead(x)[2]) && Fits(SINGLE_HEAD[3], SingleHead(x)[3]);
    assert Fits(SINGLE_HEAD[6], SingleHead(x)[6]) && Fits(SINGLE_HEAD[7], SingleHead(x)[7]);
  }

  lemma {:induction false} SingleTail(x: ExactInSingle)
    requires TypedSingle(x) && IsAddress(x.hooks) && |SINGLE_HEAD| == |SingleHead(x)| == 8
    ensures Word(x.hooks).Ok? && Word(if x.zeroForOne then 1 else 0).Ok? && Word(x.amountIn).Ok? && Word(x.minOut).Ok?
    ensures Tuple(SINGLE_HEAD[4..], SingleHead(x)[4..]) ==
            Ok(Word(x.hooks).value + (Word(if x.zeroForOne then 1 else 0).value
                                      + (Word(x.amountIn).value + Word(x.minOut).value)))
  {
    var ts, vs, b := SINGLE_HEAD, SingleHead(x), if x.zeroForOne then 1 else 0;
    TypeRanges();
    AddrIs(x.hooks);
    FlagIs(x.zeroForOne);
    TypedWord(128, x.amountIn);
    TypedWord(128, x.minOut);
    hide Word, SignedWord, EncodeValue, Tuple, Addr, Pow;
    var h, z, a, m := Word(x.hooks).value, Word(b).value, Word(x.amountIn).value, Word(x.minOut).value;
    TupleEnd(ts, vs);
    assert m + [] == m;
    TupleStep(ts, vs, 7, m, []);
    TupleStep(ts, vs, 6, a, m);
    TupleStep(ts, vs, 5, z, a + m);
    TupleStep(ts, vs, 4, h, z + (a + m));
  }

  lemma {:induction false} FrontWords(x: ExactInSingle)
    requires TypedSingle(x) && IsAddress(x.currency0) && IsAddress(x.currency1) && |SINGLE_HEAD| == |SingleHead(x)| == 8
    ensures Word(x.currency0).Ok? && Word(x.currency1).Ok? && Word(x.fee).Ok? && SignedWord(x.tickSpacing).Ok?
    ensures EncodeValue(SINGLE_HEAD[0], SingleHead(x)[0]) == Word(x.currency0)
    ensures EncodeValue(SINGLE_HEAD[1], SingleHead(x)[1]) == Word(x.currency1)
    ensures EncodeValue(SINGLE_HEAD[2], SingleHead(x)[2]) == Word(x.fee)
    ensures EncodeValue(SINGLE_HEAD[3], SingleHead(x)[3]) == SignedWord(x.tickSpacing)
  {
    TypeRanges();
    AddrIs(x.currency0);
    AddrIs(x.currency1);
    TypedWord(24, x.fee);
    SignedIs(x.tickSpacing);
    hide Word, SignedWord, EncodeValue, Addr, Pow;
  }

  lemma {:induction false} SingleFront(x: ExactInSingle, rest: bytes)
    requires TypedSingle(x) && IsAddress(x.currency0) && IsAddress(x.currency1) && |SINGLE_HEAD| == |SingleHead(x)| == 8
    requires Tuple(SINGLE_HEAD[4..], SingleHead(x)[4..]) == Ok(rest)
    ensures Word(x.currency0).Ok? && Word(x.currency1).Ok? && Word(x.fee).Ok? && SignedWord(x.tickSpacing).Ok?
    ensures Tuple(SINGLE_HEAD, SingleHead(x)) ==
            Ok(Word(x.currency0).value
               + (Word(x.currency1).value + (Word(x.fee).value + (SignedWord(x.tickSpacing).value + rest))))
  {
    var ts, vs := SINGLE_HEAD, SingleHead(x);
    FrontWords(x);
    hide *;
    FourFront(ts, vs, Word(x.currency0).value, Word(x.currency1).value, Word(x.fee).value, SignedWord(x.tickSpacing).value, rest);
  }

  lemma {:induction false} FourFront(ts: seq<AbiType>, vs: seq<Val>, a: bytes, b: bytes, c: bytes, d: bytes, rest: bytes)
    requires |ts| == |vs| == 8 && Tuple(ts[4..], vs[4..]) == Ok(rest)
    requires EncodeValue(ts[0], vs[0]) == Ok(a) && EncodeValue(ts[1], vs[1]) == Ok(b)
    requires EncodeValue(ts[2], vs[2]) == Ok(c) && EncodeValue(ts[3], vs[3]) == Ok(d)
    ensures Tuple(ts, vs) == Ok(a + (b + (c + (d + rest))))
  {
    hide *;
    TupleStep(ts, vs, 3, d, rest);
    TupleStep(ts, vs, 2, c, d + rest);
    TupleStep(ts, vs, 1, b, c + (d + rest));
    TupleStep(ts, vs, 0, a, b + (c + (d + rest)));
    assert ts[0..] == ts && vs[0..] == vs;
  }

  lemma {:induction false} SingleTuple(x: ExactInSingle, head: bytes)
    requires TypedSingle(x) && IsAddress(x.currency0) && IsAddress(x.currency1) && IsAddress(x.hooks)
    requires |SINGLE_HEAD| == |SingleHead(x)| == 8 && Tuple(SINGLE_HEAD, SingleHead(x)) == Ok(head)
    ensures EncodeSingleHead(x) == Ok(head)
  {
    SingleTail(x);
    SingleFront(x, Tuple(SINGLE_HEAD[4..], SingleHead(x)[4..]).value);
    hide Word, SignedWord, Tuple, SingleHead, TypedSingle, IsAddress;
  }

  /** The same for a swap in one pool. */
  lemma {:induction false} SingleIsArgs(x: ExactInSingle, raw: bytes)
    requires SingleInput(x) == Ok(raw)
    ensures TypedSingle(x) && EncodeSingle(x) == Ok(raw)
  {
    HeadTypes();
    hide TypedSingle, EncodeArgs, EncodeSingleHead, HeadTail, Tuple, AllFit, AllStatic, EncodeDynamicBytes, IsAddress, OneTuple, Word;
    var e := EncodeArgs(SINGLE_HEAD + [Base(DynBytes)], SingleHead(x) + [VBytes(x.hookData)]).value;
    var head := WordsThenBytes(SINGLE_HEAD, SingleHead(x), x.hookData, e);
    OneTupleIs(e);
    SingleTyped(x);
    SingleTuple(x, head);
  }
}
