/** Liquidity calldata: the builders, the decoders that bind a call to what was approved, and that each
    decoder returns exactly what its builder was given, or refuses it for a bound. */
module LpCalldata {
  import opened Wrappers
  import opened Bytes
  import opened Abi
  import opened AbiRoundTrip
  import opened V4Swap
  import opened UniversalRouter

  const U128 := Base(UInt(128))
  const U24 := Base(UInt(24))
  const I24 := Base(Int(24))
  const BYTES := Base(DynBytes)

  const MAX_U128 := 0xFFFFFFFF_FFFFFFFF_FFFFFFFF_FFFFFFFF

  // ----- encodings -----

  /** `_enc_tuple`: encoded static parameters one after another. */
  function Tuple(types: seq<AbiType>, vals: seq<Val>): Result<bytes>
    requires |types| == |vals|
  {
    if types == [] then Ok([])
    else
      var first :- EncodeValue(types[0], vals[0]);
      var rest :- Tuple(types[1..], vals[1..]);
      Ok(first + rest)
  }

  /** `_head_tail` over one-word heads and dynamic slots. */
  function Struct(types: seq<AbiType>, vals: seq<Val>): Result<bytes>
    requires |types| == |vals|
  {
    var parts :- EncodeParts(types, vals);
    HeadTail(parts)
  }

  predicate AllBase(types: seq<AbiType>) {
    forall i :: 0 <= i < |types| ==> types[i].Base? && ValidType(types[i])
  }

  predicate AllStatic(types: seq<AbiType>) {
    AllBase(types) && forall i :: 0 <= i < |types| ==> !IsDynamic(types[i])
  }

  lemma {:induction false} TupleFlat(types: seq<AbiType>, vals: seq<Val>)
    requires |types| == |vals| && AllStatic(types)
    ensures var parts := EncodeParts(types, vals);
            Tuple(types, vals) == if parts.Ok? then Ok(Flat(parts.value)) else Err
    decreases |types|
  {
    hide EncodeValue;
    if types != [] {
      TupleFlat(types[1..], vals[1..]);
      var parts := EncodeParts(types, vals);
      if parts.Ok? {
        assert parts.value[1..] == EncodeParts(types[1..], vals[1..]).value;
      }
    }
  }

  /** A tuple of static words is the encoding of its arguments. */
  lemma {:induction false} TupleIsArgs(types: seq<AbiType>, vals: seq<Val>)
    requires |types| == |vals| && AllStatic(types)
    ensures Tuple(types, vals) == EncodeArgs(types, vals)
  {
    TupleFlat(types, vals);
    hide EncodeParts, Tuple, Flat, Heads, Tails;
    var parts := EncodeParts(types, vals);
    if parts.Ok? {
      HeadsStatic(parts.value, 32 * |parts.value|);
      assert Flat(parts.value) + [] == Flat(parts.value);
    }
  }

  lemma {:induction false} WordHeads(types: seq<AbiType>, vals: seq<Val>, parts: seq<Part>)
    requires |types| == |vals| && AllBase(types) && EncodeParts(types, vals) == Ok(parts)
    ensures HeadSize(parts) == 32 * |parts| && |parts| == |types|
    decreases |types|
  {
    hide EncodeValue, IsDynamic;
    if types != [] {
      PartsStep(types, vals, parts);
      WordHeads(types[1..], vals[1..], parts[1..]);
      BaseWord(types[0], vals[0], parts[0].enc);
    }
  }

  lemma {:induction false} BaseWord(t: AbiType, v: Val, e: bytes)
    requires t.Base? && ValidType(t) && EncodeValue(t, v) == Ok(e)
    ensures !IsDynamic(t) ==> |e| == 32
  {
    if !IsDynamic(t) {
      BaseDecoded(t.kind, v, e);
    }
  }

  /** Heads of one word each: real head lengths are what the general encoder assumes. */
  lemma StructIsArgs(types: seq<AbiType>, vals: seq<Val>)
    requires |types| == |vals| && AllBase(types)
    ensures Struct(types, vals) == EncodeArgs(types, vals)
  {
    hide EncodeParts, Heads, Tails, HeadSize;
    var parts := EncodeParts(types, vals);
    if parts.Ok? {
      WordHeads(types, vals, parts.value);
    }
  }

  lemma {:induction false} StaticHeads(ps: seq<Part>, rest: seq<Part>, offset: nat)
    requires forall i :: 0 <= i < |ps| ==> !ps[i].dyn
    ensures HeadSize(ps + rest) == |Flat(ps)| + HeadSize(rest)
    ensures Tails(ps + rest) == Tails(rest)
    ensures Heads(ps + rest, offset) ==
            (var h := Heads(rest, offset); if h.Ok? then Ok(Flat(ps) + h.value) else Err)
    decreases |ps|
  {
    if ps == [] {
      assert ps + rest == rest;
      var h := Heads(rest, offset);
      assert h.Ok? ==> [] + h.value == h.value;
    } else {
      StaticHeads(ps[1..], rest, offset);
      assert (ps + rest)[1..] == ps[1..] + rest && (ps + rest)[0] == ps[0];
      assert [] + Tails(ps[1..] + rest) == Tails(ps[1..] + rest);
      var h := Heads(rest, offset);
      assert h.Ok? ==> ps[0].enc + (Flat(ps[1..]) + h.value) == Flat(ps) + h.value;
    }
  }

  /** Static heads in front of the rest, in terms of the rest. */
  lemma StaticHeadTail(ps: seq<Part>, rest: seq<Part>)
    requires forall i :: 0 <= i < |ps| ==> !ps[i].dyn
    ensures var h := Heads(rest, |Flat(ps)| + HeadSize(rest));
            HeadTail(ps + rest) == if h.Ok? then Ok(Flat(ps) + h.value + Tails(rest)) else Err
  {
    StaticHeads(ps, rest, |Flat(ps)| + HeadSize(rest));
    hide Heads, Tails, HeadSize, Flat;
  }

  lemma OneFlat(b: bytes)
    ensures Flat([Part(b, false)]) == b
  {
    assert [Part(b, false)][1..] == [] && Flat([]) == [] && b + [] == b;
  }

  /** A head entry may span several words: joining static entries changes nothing. */
  lemma {:induction false} JoinedHeads(ps: seq<Part>, rest: seq<Part>)
    requires forall i :: 0 <= i < |ps| ==> !ps[i].dyn
    ensures HeadTail([Part(Flat(ps), false)] + rest) == HeadTail(ps + rest)
  {
    hide *;
    OneFlat(Flat(ps));
    StaticHeadTail([Part(Flat(ps), false)], rest);
    StaticHeadTail(ps, rest);
  }

  /** What was encoded from base types is read back, whatever follows it. */
  lemma ArgsRead(types: seq<AbiType>, vals: seq<Val>, e: bytes, rest: bytes)
    requires AllBase(types) && EncodeArgs(types, vals) == Ok(e)
    ensures DecodeArgs(types, e + rest) == Ok(vals)
  {
    hide EncodeArgs, DecodeArgs;
    forall i | 0 <= i < |types|
      ensures Supported(types[i]) && HeadWords(types[i]) == 1
    {}
    RoundTrip(types, vals, rest);
  }

  // ----- calls -----

  function Call(selector: bytes, args: bytes): bytes { selector + args }

  /** `_lp_selector` */
  function ArgsOf(selector: bytes, data: bytes): Result<bytes>
  {
    if |data| >= 4 && data[..4] == selector then Ok(data[4..]) else Err
  }

  lemma CallSplit(selector: bytes, args: bytes)
    requires |selector| == 4
    ensures ArgsOf(selector, Call(selector, args)) == Ok(args)
  {
    assert Call(selector, args)[..4] == selector && Call(selector, args)[4..] == args;
  }

  function RawAt(v: seq<Val>, i: nat): Result<bytes>
  {
    if i < |v| && v[i].VBytes? then Ok(v[i].raw) else Err
  }

  function IntAt(v: seq<Val>, i: nat): Result<int>
  {
    if i < |v| && v[i].VInt? then Ok(v[i].i) else Err
  }

  predicate NotNative(token: bytes) { !IsNative(BigEndian(token)) }

  // ----- v2 add and remove -----

  datatype V2Add = V2Add(tokenA: bytes, tokenB: bytes, aMax: int, bMax: int, aMin: int, bMin: int, to: bytes, deadline: int)

  const V2_ADD: bytes := [0xe8, 0xe3, 0x37, 0x00]
  const V2_ADD_TYPES := [ADDRESS, ADDRESS, UINT, UINT, UINT, UINT, ADDRESS, UINT]

  function V2AddVals(x: V2Add): seq<Val> {
    [VBytes(x.tokenA), VBytes(x.tokenB), VInt(x.aMax), VInt(x.bMax), VInt(x.aMin), VInt(x.bMin), VBytes(x.to), VInt(x.deadline)]
  }

  function BuildV2Add(x: V2Add): Result<bytes>
  {
    if x.aMax <= 0 || x.bMax <= 0 || x.aMin < 0 || x.bMin < 0 || x.deadline <= 0 then Err
    else
      var args :- Tuple(V2_ADD_TYPES, V2AddVals(x));
      Ok(Call(V2_ADD, args))
  }

  function ReadV2Add(v: seq<Val>): Result<V2Add>
  {
    var ta :- RawAt(v, 0);
    var tb :- RawAt(v, 1);
    var a :- IntAt(v, 2);
    var b :- IntAt(v, 3);
    var am :- IntAt(v, 4);
    var bm :- IntAt(v, 5);
    var to :- RawAt(v, 6);
    var d :- IntAt(v, 7);
    Ok(V2Add(ta, tb, a, b, am, bm, to, d))
  }

  /** The call keeps to what was approved; the deadline is free. */
  predicate V2AddWithin(x: V2Add, ok: V2Add) {
    && NotNative(ok.tokenA) && NotNative(ok.tokenB)
    && x.tokenA == ok.tokenA && x.tokenB == ok.tokenB && x.to == ok.to
    && x.aMax <= ok.aMax && x.bMax <= ok.bMax && x.aMin >= ok.aMin && x.bMin >= ok.bMin
  }

  function DecodeV2Add(data: bytes, ok: V2Add): Result<V2Add>
  {
    var args :- ArgsOf(V2_ADD, data);
    var v :- DecodeArgs(V2_ADD_TYPES, args);
    var x :- ReadV2Add(v);
    if V2AddWithin(x, ok) then Ok(x) else Err
  }

  /** Static calldata decodes to the values it was built from. */
  lemma {:induction false} StaticCall(selector: bytes, types: seq<AbiType>, vals: seq<Val>, args: bytes)
    requires |selector| == 4 && |types| == |vals| && AllStatic(types) && Tuple(types, vals) == Ok(args)
    ensures ArgsOf(selector, Call(selector, args)) == Ok(args) && DecodeArgs(types, args) == Ok(vals)
  {
    hide Tuple, EncodeArgs, DecodeArgs;
    CallSplit(selector, args);
    TupleIsArgs(types, vals);
    ArgsRead(types, vals, args, []);
    assert args + [] == args;
  }

  lemma V2AddDecoded(x: V2Add, ok: V2Add, data: bytes)
    requires BuildV2Add(x) == Ok(data)
    ensures DecodeV2Add(data, ok) == if V2AddWithin(x, ok) then Ok(x) else Err
  {
    hide Tuple, DecodeArgs, ArgsOf, V2AddWithin, BuildV2Add, AllStatic, AllBase;
    var args := V2AddArgs(x, data);
    StaticCall(V2_ADD, V2_ADD_TYPES, V2AddVals(x), args);
  }

  lemma V2AddArgs(x: V2Add, data: bytes) returns (args: bytes)
    requires BuildV2Add(x) == Ok(data)
    ensures |V2_ADD_TYPES| == |V2AddVals(x)| && AllStatic(V2_ADD_TYPES)
    ensures Tuple(V2_ADD_TYPES, V2AddVals(x)) == Ok(args) && data == Call(V2_ADD, args)
  {
    hide Tuple;
    args := Tuple(V2_ADD_TYPES, V2AddVals(x)).value;
  }

  datatype V2Remove = V2Remove(tokenA: bytes, tokenB: bytes, liquidity: int, aMin: int, bMin: int, to: bytes, deadline: int)

  const V2_REMOVE: bytes := [0xba, 0xa2, 0xab, 0xde]
  const V2_REMOVE_TYPES := [ADDRESS, ADDRESS, UINT, UINT, UINT, ADDRESS, UINT]

  function V2RemoveVals(x: V2Remove): seq<Val> {
    [VBytes(x.tokenA), VBytes(x.tokenB), VInt(x.liquidity), VInt(x.aMin), VInt(x.bMin), VBytes(x.to), VInt(x.deadline)]
  }

  function BuildV2Remove(x: V2Remove): Result<bytes>
  {
    if x.liquidity <= 0 || x.aMin < 0 || x.bMin < 0 || x.deadline <= 0 then Err
    else
      var args :- Tuple(V2_REMOVE_TYPES, V2RemoveVals(x));
      Ok(Call(V2_REMOVE, args))
  }

  function ReadV2Remove(v: seq<Val>): Result<V2Remove>
  {
    var ta :- RawAt(v, 0);
    var tb :- RawAt(v, 1);
    var l :- IntAt(v, 2);
    var am :- IntAt(v, 3);
    var bm :- IntAt(v, 4);
    var to :- RawAt(v, 5);
    var d :- IntAt(v, 6);
    Ok(V2Remove(ta, tb, l, am, bm, to, d))
  }

  predicate V2RemoveWithin(x: V2Remove, ok: V2Remove) {
    && NotNative(ok.tokenA) && NotNative(ok.tokenB)
    && x.tokenA == ok.tokenA && x.tokenB == ok.tokenB && x.to == ok.to
    && x.liquidity == ok.liquidity && x.aMin >= ok.aMin && x.bMin >= ok.bMin
  }

  function DecodeV2Remove(data: bytes, ok: V2Remove): Result<V2Remove>
  {
    var args :- ArgsOf(V2_REMOVE, data);
    var v :- DecodeArgs(V2_REMOVE_TYPES, args);
    var x :- ReadV2Remove(v);
    if V2RemoveWithin(x, ok) then Ok(x) else Err
  }

  lemma V2RemoveDecoded(x: V2Remove, ok: V2Remove, data: bytes)
    requires BuildV2Remove(x) == Ok(data)
    ensures DecodeV2Remove(data, ok) == if V2RemoveWithin(x, ok) then Ok(x) else Err
  {
    hide Tuple, DecodeArgs, ArgsOf, V2RemoveWithin, BuildV2Remove, AllStatic, AllBase;
    var args := V2RemoveArgs(x, data);
    StaticCall(V2_REMOVE, V2_REMOVE_TYPES, V2RemoveVals(x), args);
  }

  lemma V2RemoveArgs(x: V2Remove, data: bytes) returns (args: bytes)
    requires BuildV2Remove(x) == Ok(data)
    ensures |V2_REMOVE_TYPES| == |V2RemoveVals(x)| && AllStatic(V2_REMOVE_TYPES)
    ensures Tuple(V2_REMOVE_TYPES, V2RemoveVals(x)) == Ok(args) && data == Call(V2_REMOVE, args)
  {
    hide Tuple;
    args := Tuple(V2_REMOVE_TYPES, V2RemoveVals(x)).value;
  }

  // ----- v3 mint -----

  datatype V3Mint = V3Mint(token0: bytes, token1: bytes, fee: int, tickLower: int, tickUpper: int,
                           max0: int, max1: int, min0: int, min1: int, recipient: bytes, deadline: int)

  const V3_MINT: bytes := [0x88, 0x31, 0x64, 0x56]
  const V3_MINT_TYPES := [ADDRESS, ADDRESS, U24, I24, I24, UINT, UINT, UINT, UINT, ADDRESS, UINT]

  function V3MintVals(x: V3Mint): seq<Val> {
    [VBytes(x.token0), VBytes(x.token1), VInt(x.fee), VInt(x.tickLower), VInt(x.tickUpper),
     VInt(x.max0), VInt(x.max1), VInt(x.min0), VInt(x.min1), VBytes(x.recipient), VInt(x.deadline)]
  }

  function BuildV3Mint(x: V3Mint): Result<bytes>
  {
    if |x.token0| != 20 || |x.token1| != 20 || BigEndian(x.token0) >= BigEndian(x.token1)
       || (x.fee != 100 && x.fee != 500 && x.fee != 3000 && x.fee != 10000) || x.tickLower >= x.tickUpper
       || x.max0 <= 0 || x.max1 <= 0 || x.min0 < 0 || x.min1 < 0 || x.deadline <= 0 then Err
    else
      var args :- Tuple(V3_MINT_TYPES, V3MintVals(x));
      Ok(Call(V3_MINT, args))
  }

  function ReadV3Mint(v: seq<Val>): Result<V3Mint>
  {
    var t0 :- RawAt(v, 0);
    var t1 :- RawAt(v, 1);
    var f :- IntAt(v, 2);
    var tl :- IntAt(v, 3);
    var tu :- IntAt(v, 4);
    var a0 :- IntAt(v, 5);
    var a1 :- IntAt(v, 6);
    var m0 :- IntAt(v, 7);
    var m1 :- IntAt(v, 8);
    var r :- RawAt(v, 9);
    var d :- IntAt(v, 10);
    Ok(V3Mint(t0, t1, f, tl, tu, a0, a1, m0, m1, r, d))
  }

  predicate V3MintWithin(x: V3Mint, ok: V3Mint) {
    && NotNative(ok.token0) && NotNative(ok.token1)
    && x.token0 == ok.token0 && x.token1 == ok.token1 && x.recipient == ok.recipient
    && x.fee == ok.fee && x.tickLower == ok.tickLower && x.tickUpper == ok.tickUpper
    && x.max0 <= ok.max0 && x.max1 <= ok.max1 && x.min0 >= ok.min0 && x.min1 >= ok.min1
  }

  function DecodeV3Mint(data: bytes, ok: V3Mint): Result<V3Mint>
  {
    var args :- ArgsOf(V3_MINT, data);
    var v :- DecodeArgs(V3_MINT_TYPES, args);
    var x :- ReadV3Mint(v);
    if V3MintWithin(x, ok) then Ok(x) else Err
  }

  /** Negative ticks included. */
  lemma V3MintDecoded(x: V3Mint, ok: V3Mint, data: bytes)
    requires BuildV3Mint(x) == Ok(data)
    ensures DecodeV3Mint(data, ok) == if V3MintWithin(x, ok) then Ok(x) else Err
  {
    hide Tuple, DecodeArgs, ArgsOf, V3MintWithin, BuildV3Mint, AllStatic, AllBase;
    var args := V3MintArgs(x, data);
    StaticCall(V3_MINT, V3_MINT_TYPES, V3MintVals(x), args);
  }

  lemma V3MintArgs(x: V3Mint, data: bytes) returns (args: bytes)
    requires BuildV3Mint(x) == Ok(data)
    ensures |V3_MINT_TYPES| == |V3MintVals(x)| && AllStatic(V3_MINT_TYPES)
    ensures Tuple(V3_MINT_TYPES, V3MintVals(x)) == Ok(args) && data == Call(V3_MINT, args)
  {
    hide Tuple;
    args := Tuple(V3_MINT_TYPES, V3MintVals(x)).value;
  }

  // ----- v3 collect, and decrease + collect in one multicall -----

  datatype V3Collect = V3Collect(tokenId: int, recipient: bytes, max0: int, max1: int)

  const V3_COLLECT: bytes := [0xfc, 0x6f, 0x78, 0x65]
  const V3_COLLECT_TYPES := [UINT, ADDRESS, U128, U128]

  function V3CollectVals(x: V3Collect): seq<Val> { [VInt(x.tokenId), VBytes(x.recipient), VInt(x.max0), VInt(x.max1)] }

  function BuildV3Collect(x: V3Collect): Result<bytes>
  {
    if x.tokenId <= 0 then Err
    else
      var args :- Tuple(V3_COLLECT_TYPES, V3CollectVals(x));
      Ok(Call(V3_COLLECT, args))
  }

  function DecodeV3Collect(data: bytes, tokenId: int, wallet: bytes): Result<V3Collect>
  {
    var args :- ArgsOf(V3_COLLECT, data);
    var v :- DecodeArgs(V3_COLLECT_TYPES, args);
    var t :- IntAt(v, 0);
    var r :- RawAt(v, 1);
    var m0 :- IntAt(v, 2);
    var m1 :- IntAt(v, 3);
    if t == tokenId && r == wallet then Ok(V3Collect(t, r, m0, m1)) else Err
  }

  lemma V3CollectDecoded(x: V3Collect, tokenId: int, wallet: bytes, data: bytes)
    requires BuildV3Collect(x) == Ok(data)
    ensures DecodeV3Collect(data, tokenId, wallet) == if x.tokenId == tokenId && x.recipient == wallet then Ok(x) else Err
  {
    hide Tuple, DecodeArgs, ArgsOf, BuildV3Collect, AllStatic, AllBase;
    var args := V3CollectArgs(x, data);
    StaticCall(V3_COLLECT, V3_COLLECT_TYPES, V3CollectVals(x), args);
  }

  lemma V3CollectArgs(x: V3Collect, data: bytes) returns (args: bytes)
    requires BuildV3Collect(x) == Ok(data)
    ensures |V3_COLLECT_TYPES| == |V3CollectVals(x)| && AllStatic(V3_COLLECT_TYPES)
    ensures Tuple(V3_COLLECT_TYPES, V3CollectVals(x)) == Ok(args) && data == Call(V3_COLLECT, args)
  {
    hide Tuple;
    args := Tuple(V3_COLLECT_TYPES, V3CollectVals(x)).value;
  }

  datatype V3Remove = V3Remove(tokenId: int, liquidity: int, min0: int, min1: int, recipient: bytes, deadline: int)

  const V3_DECREASE: bytes := [0x0c, 0x49, 0xcc, 0xbe]
  const V3_DECREASE_TYPES := [UINT, U128, UINT, UINT, UINT]
  const V3_MULTICALL: bytes := [0xac, 0x96, 0x50, 0xd8]

  function V3DecreaseVals(x: V3Remove): seq<Val> {
    [VInt(x.tokenId), VInt(x.liquidity), VInt(x.min0), VInt(x.min1), VInt(x.deadline)]
  }

  function BuildV3Decrease(x: V3Remove): Result<bytes>
  {
    if x.tokenId <= 0 || x.liquidity <= 0 || x.min0 < 0 || x.min1 < 0 || x.deadline <= 0 then Err
    else
      var args :- Tuple(V3_DECREASE_TYPES, V3DecreaseVals(x));
      Ok(Call(V3_DECREASE, args))
  }

  const CALLS := [Array(None, BYTES)]

  function Multicall(calls: seq<bytes>): Result<bytes>
  {
    var items :- EncodeEach(calls);
    var a :- EncDynArray(items);
    var args :- HeadTail([Part(a, true)]);
    Ok(Call(V3_MULTICALL, args))
  }

  function BuildV3Remove(x: V3Remove): Result<bytes>
  {
    var dec :- BuildV3Decrease(x);
    var col :- BuildV3Collect(V3Collect(x.tokenId, x.recipient, MAX_U128, MAX_U128));
    Multicall([dec, col])
  }

  predicate V3RemoveWithin(x: V3Remove, ok: V3Remove) {
    && x.tokenId == ok.tokenId && x.liquidity == ok.liquidity && x.recipient == ok.recipient
    && x.min0 >= ok.min0 && x.min1 >= ok.min1
  }

  function CallsOf(v: seq<Val>): Result<seq<bytes>>
  {
    if |v| == 1 && v[0].VList? && AllBytes(v[0].items) then Ok(RawItems(v[0].items)) else Err
  }

  function DecodeV3Remove(data: bytes, ok: V3Remove): Result<V3Remove>
  {
    var args :- ArgsOf(V3_MULTICALL, data);
    var v :- DecodeArgs(CALLS, args);
    var calls :- CallsOf(v);
    if |calls| != 2 then Err
    else
      var dec :- ArgsOf(V3_DECREASE, calls[0]);
      var d :- DecodeArgs(V3_DECREASE_TYPES, dec);
      var t :- IntAt(d, 0);
      var l :- IntAt(d, 1);
      var m0 :- IntAt(d, 2);
      var m1 :- IntAt(d, 3);
      var deadline :- IntAt(d, 4);
      var col :- DecodeV3Collect(calls[1], ok.tokenId, ok.recipient);
      var x := V3Remove(t, l, m0, m1, col.recipient, deadline);
      if V3RemoveWithin(x, ok) then Ok(x) else Err
  }

  /** A call with one list of byte strings is the encoding of that list. */
  lemma MulticallIsArgs(calls: seq<bytes>, data: bytes)
    requires Multicall(calls) == Ok(data)
    ensures ArgsOf(V3_MULTICALL, data).Ok?
    ensures EncodeArgs(CALLS, [VList(BytesItems(calls))]) == ArgsOf(V3_MULTICALL, data)
  {
    hide Word, EncodeItems, Heads, Tails, EncodeEach, HeadSize;
    EachIsItems(calls);
    var vals := [VList(BytesItems(calls))];
    var a := EncDynArray(EncodeEach(calls).value).value;
    var parts := [Part(a, true)];
    assert EncodeValue(CALLS[0], vals[0]) == Ok(a);
    assert CALLS[1..] == [] && vals[1..] == [] && EncodeParts([], []) == Ok([]);
    assert EncodeParts(CALLS, vals) == Ok(parts) by {
      assert parts + [] == parts;
    }
    OneHead(a);
    CallSplit(V3_MULTICALL, HeadTail(parts).value);
  }

  lemma OneHead(a: bytes)
    ensures HeadTail([Part(a, true)]) == Layout([Part(a, true)])
  {
    assert [Part(a, true)][1..] == [] && HeadSize([]) == 0 && HeadSize([Part(a, true)]) == 32;
    hide Heads, Tails;
  }

  lemma CallsRead(calls: seq<bytes>, data: bytes)
    requires Multicall(calls) == Ok(data)
    ensures var args := ArgsOf(V3_MULTICALL, data);
            args.Ok? && DecodeArgs(CALLS, args.value) == Ok([VList(BytesItems(calls))])
            && CallsOf([VList(BytesItems(calls))]) == Ok(calls)
  {
    MulticallIsArgs(calls, data);
    var args := ArgsOf(V3_MULTICALL, data).value;
    assert IsDynamic(CALLS[0]);
    hide Multicall, EncodeArgs, DecodeArgs, ArgsOf;
    RoundTrip(CALLS, [VList(BytesItems(calls))], []);
    assert args + [] == args;
    assert RawItems(BytesItems(calls)) == calls;
  }

  lemma DecreaseRead(x: V3Remove, dec: bytes)
    requires BuildV3Decrease(x) == Ok(dec)
    ensures ArgsOf(V3_DECREASE, dec).Ok?
    ensures DecodeArgs(V3_DECREASE_TYPES, ArgsOf(V3_DECREASE, dec).value) == Ok(V3DecreaseVals(x))
  {
    var args := Tuple(V3_DECREASE_TYPES, V3DecreaseVals(x)).value;
    assert AllStatic(V3_DECREASE_TYPES);
    hide Tuple, DecodeArgs, ArgsOf;
    StaticCall(V3_DECREASE, V3_DECREASE_TYPES, V3DecreaseVals(x), args);
  }

  lemma RemoveFromCalls(data: bytes, ok: V3Remove, x: V3Remove, args: bytes, v: seq<Val>, calls: seq<bytes>, dec: bytes)
    requires ArgsOf(V3_MULTICALL, data) == Ok(args) && DecodeArgs(CALLS, args) == Ok(v) && CallsOf(v) == Ok(calls)
    requires |calls| == 2 && ArgsOf(V3_DECREASE, calls[0]) == Ok(dec) && DecodeArgs(V3_DECREASE_TYPES, dec) == Ok(V3DecreaseVals(x))
    requires var c := DecodeV3Collect(calls[1], ok.tokenId, ok.recipient);
             if x.tokenId == ok.tokenId && x.recipient == ok.recipient then c.Ok? && c.value.recipient == x.recipient else c.Err?
    ensures DecodeV3Remove(data, ok) == if V3RemoveWithin(x, ok) then Ok(x) else Err
  {
    hide ArgsOf, DecodeArgs, CallsOf, DecodeV3Collect;
  }

  lemma V3RemoveDecoded(x: V3Remove, ok: V3Remove, data: bytes)
    requires BuildV3Remove(x) == Ok(data)
    ensures DecodeV3Remove(data, ok) == if V3RemoveWithin(x, ok) then Ok(x) else Err
  {
    var dec := BuildV3Decrease(x).value;
    var collect := V3Collect(x.tokenId, x.recipient, MAX_U128, MAX_U128);
    var col := BuildV3Collect(collect).value;
    hide *;
    var calls := [dec, col];
    CallsRead(calls, data);
    DecreaseRead(x, dec);
    V3CollectDecoded(collect, ok.tokenId, ok.recipient, col);
    RemoveFromCalls(data, ok, x, ArgsOf(V3_MULTICALL, data).value, [VList(BytesItems(calls))], calls, ArgsOf(V3_DECREASE, dec).value);
  }

  // ----- v4: modifyLiquidities -----

  const V4_MODIFY: bytes := [0xdd, 0x46, 0x50, 0x8f]
  const MODIFY_TYPES := [BYTES, UINT]

  /** `modifyLiquidities(abi.encode(actions, params), deadline)` */
  function Modify(codes: bytes, params: seq<bytes>, deadline: int): Result<bytes>
  {
    if codes == [] || |codes| != |params| || deadline <= 0 then Err
    else
      var unlock :- EncodePlan(codes, params);
      var args :- Struct(MODIFY_TYPES, [VBytes(unlock), VInt(deadline)]);
      Ok(Call(V4_MODIFY, args))
  }

  datatype Unlocked = Unlocked(codes: bytes, params: seq<bytes>, deadline: int)

  function DecodeModify(data: bytes): Result<Unlocked>
  {
    var args :- ArgsOf(V4_MODIFY, data);
    var v :- DecodeArgs(MODIFY_TYPES, args);
    var unlock :- RawAt(v, 0);
    var deadline :- IntAt(v, 1);
    var inner :- DecodeArgs(PLAN, unlock);
    var plan :- PlanOf(inner);
    Ok(Unlocked(plan.0, plan.1, deadline))
  }

  lemma ModifyRead(codes: bytes, params: seq<bytes>, deadline: int, data: bytes)
    requires Modify(codes, params, deadline) == Ok(data)
    ensures DecodeModify(data) == Ok(Unlocked(codes, params, deadline))
  {
    hide EncodePlan, Struct, DecodeArgs, ArgsOf, PlanOf, AllBase;
    var unlock := EncodePlan(codes, params).value;
    var vals := [VBytes(unlock), VInt(deadline)];
    var args := Struct(MODIFY_TYPES, vals).value;
    ModifyTypes();
    CallSplit(V4_MODIFY, args);
    StructRead(MODIFY_TYPES, vals, args);
    PlanRead(unlock, codes, params);
    PlanInside(unlock, codes, params);
  }

  lemma ModifyTypes()
    ensures AllBase(MODIFY_TYPES)
  {}

  lemma PlanInside(unlock: bytes, codes: bytes, params: seq<bytes>)
    requires DecodePlan(unlock) == Ok((codes, params))
    ensures var v := DecodeArgs(PLAN, unlock);
            v.Ok? && PlanOf(v.value) == Ok((codes, params))
  {
    hide DecodeArgs, PlanOf, EncodePlan;
  }

  lemma StructRead(types: seq<AbiType>, vals: seq<Val>, e: bytes)
    requires |types| == |vals| && AllBase(types) && Struct(types, vals) == Ok(e)
    ensures DecodeArgs(types, e) == Ok(vals)
  {
    hide Struct, EncodeArgs, DecodeArgs;
    StructIsArgs(types, vals);
    ArgsRead(types, vals, e, []);
    assert e + [] == e;
  }

  lemma {:induction false} TupleRead(types: seq<AbiType>, vals: seq<Val>, e: bytes)
    requires |types| == |vals| && AllStatic(types) && Tuple(types, vals) == Ok(e)
    ensures DecodeArgs(types, e) == Ok(vals)
  {
    hide Tuple, EncodeArgs, DecodeArgs;
    TupleIsArgs(types, vals);
    ArgsRead(types, vals, e, []);
    assert e + [] == e;
  }

  // ----- v4 add: mint and settle -----

  datatype V4Add = V4Add(currency0: bytes, currency1: bytes, fee: int, tickSpacing: int, hooks: bytes,
                         tickLower: int, tickUpper: int, liquidity: int, max0: int, max1: int, owner: bytes, deadline: int)

  /** Sorted currencies; the native one only when allowed. */
  predicate CurrenciesOk(c0: bytes, c1: bytes, allowNative: bool) {
    && |c0| == |c1| == 20 && BigEndian(c0) < BigEndian(c1)
    && (BigEndian(c0) == 0 ==> allowNative)
  }

  /** The tick spacing lies strictly between the ends of its type's range, and the ticks are its multiples. */
  predicate TicksOk(x: V4Add) {
    && x.tickSpacing != 0 && -INT23 < x.tickSpacing < INT23 && x.tickLower < x.tickUpper
    && x.tickLower % x.tickSpacing == 0 && x.tickUpper % x.tickSpacing == 0
  }

  const KEY_TYPES := [ADDRESS, ADDRESS, U24, I24, ADDRESS]
  const MINT_REST := [I24, I24, UINT, U128, U128, ADDRESS, BYTES]
  const MINT_TYPES := [ADDRESS, ADDRESS, U24, I24, ADDRESS, I24, I24, UINT, U128, U128, ADDRESS, BYTES]

  function KeyVals(x: V4Add): seq<Val> {
    [VBytes(x.currency0), VBytes(x.currency1), VInt(x.fee), VInt(x.tickSpacing), VBytes(x.hooks)]
  }

  function MintRestVals(x: V4Add): seq<Val> {
    [VInt(x.tickLower), VInt(x.tickUpper), VInt(x.liquidity), VInt(x.max0), VInt(x.max1), VBytes(x.owner), VBytes([])]
  }

  /** The pool key is one head entry of five words. */
  function MintParams(x: V4Add): Result<bytes>
  {
    var key :- Tuple(KEY_TYPES, KeyVals(x));
    var rest :- EncodeParts(MINT_REST, MintRestVals(x));
    HeadTail([Part(key, false)] + rest)
  }

  const MINT_SETTLE: bytes := [0x02, 0x0D]

  function BuildV4Add(x: V4Add, allowNative: bool): Result<bytes>
  {
    if !CurrenciesOk(x.currency0, x.currency1, allowNative) || !TicksOk(x) || x.liquidity <= 0 then Err
    else
      var mint :- MintParams(x);
      var settle :- Tuple([ADDRESS, ADDRESS], [VBytes(x.currency0), VBytes(x.currency1)]);
      Modify(MINT_SETTLE, [mint, settle], x.deadline)
  }

  function ReadV4Mint(v: seq<Val>, deadline: int): Result<V4Add>
  {
    var c0 :- RawAt(v, 0);
    var c1 :- RawAt(v, 1);
    var f :- IntAt(v, 2);
    var s :- IntAt(v, 3);
    var h :- RawAt(v, 4);
    var tl :- IntAt(v, 5);
    var tu :- IntAt(v, 6);
    var l :- IntAt(v, 7);
    var a0 :- IntAt(v, 8);
    var a1 :- IntAt(v, 9);
    var o :- RawAt(v, 10);
    Ok(V4Add(c0, c1, f, s, h, tl, tu, l, a0, a1, o, deadline))
  }

  /** What was approved for an add, with the value the transaction carries. */
  datatype AddBounds = AddBounds(currency0: bytes, currency1: bytes, cap0: int, cap1: int, wallet: bytes, value: int)

  predicate V4AddWithin(x: V4Add, ok: AddBounds) {
    && x.currency0 == ok.currency0 && x.currency1 == ok.currency1 && BigEndian(x.hooks) == 0 && x.owner == ok.wallet
    && x.max0 <= ok.cap0 && x.max1 <= ok.cap1
    && if BigEndian(x.currency0) == 0 then x.max0 <= ok.value <= ok.cap0 else ok.value == 0
  }

  function DecodeV4Add(data: bytes, ok: AddBounds): Result<V4Add>
  {
    var u :- DecodeModify(data);
    if u.codes != MINT_SETTLE || |u.params| != 2 then Err
    else
      var v :- DecodeArgs(MINT_TYPES, u.params[0]);
      var x :- ReadV4Mint(v, u.deadline);
      var s :- DecodeArgs([ADDRESS, ADDRESS], u.params[1]);
      var s0 :- RawAt(s, 0);
      var s1 :- RawAt(s, 1);
      if s0 == x.currency0 && s1 == x.currency1 && V4AddWithin(x, ok) then Ok(x) else Err
  }

  lemma {:induction false} PartsCons(t: AbiType, v: Val, types: seq<AbiType>, vals: seq<Val>, e: bytes, ps: seq<Part>)
    requires |types| == |vals| && EncodeValue(t, v) == Ok(e) && EncodeParts(types, vals) == Ok(ps)
    ensures EncodeParts([t] + types, [v] + vals) == Ok([Part(e, IsDynamic(t))] + ps)
  {
    hide EncodeValue, IsDynamic;
    assert ([t] + types)[1..] == types && ([v] + vals)[1..] == vals;
  }

  lemma {:induction false} NoParts(types: seq<AbiType>, vals: seq<Val>, ps: seq<Part>)
    requires types == [] && vals == [] && EncodeParts(types, vals) == Ok(ps)
    ensures ps == []
  {}

  lemma ConsAppend<T>(s: seq<T>, t: seq<T>)
    requires s != []
    ensures [s[0]] + (s[1..] + t) == s + t
  {}

  lemma {:induction false} PartsConcat(t1: seq<AbiType>, v1: seq<Val>, t2: seq<AbiType>, v2: seq<Val>, p1: seq<Part>, p2: seq<Part>)
    requires |t1| == |v1| && |t2| == |v2| && EncodeParts(t1, v1) == Ok(p1) && EncodeParts(t2, v2) == Ok(p2)
    ensures EncodeParts(t1 + t2, v1 + v2) == Ok(p1 + p2)
    decreases |t1|
  {
    hide *;
    if t1 == [] {
      NoParts(t1, v1, p1);
      assert t1 + t2 == t2 && v1 + v2 == v2 && p1 + p2 == p2;
    } else {
      PartsStep(t1, v1, p1);
      PartsConcat(t1[1..], v1[1..], t2, v2, p1[1..], p2);
      PartsCons(t1[0], v1[0], t1[1..] + t2, v1[1..] + v2, p1[0].enc, p1[1..] + p2);
      ConsAppend(t1, t2);
      ConsAppend(v1, v2);
      ConsAppend(p1, p2);
    }
  }

  /** Static words written as one head entry, followed by other entries, are the whole struct. */
  lemma {:induction false} JoinedStruct(t1: seq<AbiType>, v1: seq<Val>, t2: seq<AbiType>, v2: seq<Val>, key: bytes, rest: seq<Part>)
    requires |t1| == |v1| && |t2| == |v2| && AllStatic(t1)
    requires Tuple(t1, v1) == Ok(key) && EncodeParts(t2, v2) == Ok(rest)
    ensures HeadTail([Part(key, false)] + rest) == Struct(t1 + t2, v1 + v2)
  {
    TupleFlat(t1, v1);
    var ps := EncodeParts(t1, v1).value;
    hide Tuple, EncodeParts, Flat, HeadTail, EncodeValue;
    StaticParts(t1, v1, ps);
    JoinedHeads(ps, rest);
    PartsConcat(t1, v1, t2, v2, ps, rest);
  }

  lemma {:induction false} StaticParts(types: seq<AbiType>, vals: seq<Val>, ps: seq<Part>)
    requires |types| == |vals| && AllStatic(types) && EncodeParts(types, vals) == Ok(ps)
    ensures forall i :: 0 <= i < |ps| ==> !ps[i].dyn
  {}

  lemma MintRead(x: V4Add, e: bytes)
    requires MintParams(x) == Ok(e)
    ensures DecodeArgs(MINT_TYPES, e) == Ok(KeyVals(x) + MintRestVals(x))
  {
    var key, rest := Tuple(KEY_TYPES, KeyVals(x)).value, EncodeParts(MINT_REST, MintRestVals(x)).value;
    hide *;
    MintTypes(x);
    JoinedStruct(KEY_TYPES, KeyVals(x), MINT_REST, MintRestVals(x), key, rest);
    StructRead(MINT_TYPES, KeyVals(x) + MintRestVals(x), e);
  }

  lemma MintTypes(x: V4Add)
    ensures AllStatic(KEY_TYPES) && AllBase(MINT_TYPES) && KEY_TYPES + MINT_REST == MINT_TYPES
    ensures |KEY_TYPES| == |KeyVals(x)| && |MINT_REST| == |MintRestVals(x)|
  {}

  lemma MintFields(x: V4Add)
    ensures ReadV4Mint(KeyVals(x) + MintRestVals(x), x.deadline) == Ok(x)
  {}

  lemma AddFromParts(data: bytes, ok: AddBounds, x: V4Add, mint: bytes, settle: bytes, v: seq<Val>)
    requires DecodeModify(data) == Ok(Unlocked(MINT_SETTLE, [mint, settle], x.deadline))
    requires DecodeArgs(MINT_TYPES, mint) == Ok(v) && ReadV4Mint(v, x.deadline) == Ok(x)
    requires DecodeArgs([ADDRESS, ADDRESS], settle) == Ok([VBytes(x.currency0), VBytes(x.currency1)])
    ensures DecodeV4Add(data, ok) == if V4AddWithin(x, ok) then Ok(x) else Err
  {
    hide DecodeModify, DecodeArgs, ReadV4Mint, V4AddWithin;
  }

  /** The add decoder returns what the builder was given exactly when the call keeps to the bounds and
      the pool has no hooks; the nested unlock data and negative ticks are read back unchanged. */
  lemma V4AddDecoded(x: V4Add, allowNative: bool, ok: AddBounds, data: bytes)
    requires BuildV4Add(x, allowNative) == Ok(data)
    ensures DecodeV4Add(data, ok) == if V4AddWithin(x, ok) then Ok(x) else Err
  {
    var mint := MintParams(x).value;
    var pair := [VBytes(x.currency0), VBytes(x.currency1)];
    var settle := Tuple([ADDRESS, ADDRESS], pair).value;
    assert AllStatic([ADDRESS, ADDRESS]);
    hide *;
    ModifyRead(MINT_SETTLE, [mint, settle], x.deadline, data);
    MintRead(x, mint);
    MintFields(x);
    TupleRead([ADDRESS, ADDRESS], pair, settle);
    AddFromParts(data, ok, x, mint, settle, KeyVals(x) + MintRestVals(x));
  }

  // ----- v4 remove and claim: decrease, take, and burn -----

  datatype V4Take = V4Take(tokenId: int, liquidity: int, min0: int, min1: int, currency0: bytes, currency1: bytes,
                           recipient: bytes, deadline: int, burn: bool)

  const DECREASE_TYPES := [UINT, UINT, U128, U128, BYTES]
  const TAKE_TYPES := [ADDRESS, ADDRESS, ADDRESS]
  const BURN_TYPES := [UINT, U128, U128, BYTES]

  function DecreaseVals(x: V4Take): seq<Val> { [VInt(x.tokenId), VInt(x.liquidity), VInt(x.min0), VInt(x.min1), VBytes([])] }

  function TakeVals(x: V4Take): seq<Val> { [VBytes(x.currency0), VBytes(x.currency1), VBytes(x.recipient)] }

  function BurnVals(x: V4Take): seq<Val> { [VInt(x.tokenId), VInt(0), VInt(0), VBytes([])] }

  function TakeCodes(burn: bool): bytes { [0x01, 0x11] + if burn then [0x03] else [] }

  /** The remove builder: the removed liquidity is positive. A claim decreases by nothing and burns nothing. */
  predicate TakeArgsOk(x: V4Take, claim: bool) {
    && x.tokenId > 0
    && (if claim then x.liquidity == x.min0 == x.min1 == 0 && !x.burn else x.liquidity > 0)
  }

  function BuildV4Take(x: V4Take, claim: bool, allowNative: bool): Result<bytes>
  {
    if !TakeArgsOk(x, claim) || !CurrenciesOk(x.currency0, x.currency1, allowNative) then Err
    else
      var dec :- Struct(DECREASE_TYPES, DecreaseVals(x));
      var take :- Tuple(TAKE_TYPES, TakeVals(x));
      if x.burn then
        var burn :- Struct(BURN_TYPES, BurnVals(x));
        Modify(TakeCodes(true), [dec, take, burn], x.deadline)
      else Modify(TakeCodes(false), [dec, take], x.deadline)
  }

  predicate V4TakeWithin(x: V4Take, ok: V4Take) {
    && x.tokenId == ok.tokenId && x.liquidity == ok.liquidity && x.min0 >= ok.min0 && x.min1 >= ok.min1
    && x.currency0 == ok.currency0 && x.currency1 == ok.currency1 && x.recipient == ok.recipient && x.burn == ok.burn
  }

  function ReadV4Take(d: seq<Val>, t: seq<Val>, deadline: int, burn: bool): Result<V4Take>
  {
    var id :- IntAt(d, 0);
    var l :- IntAt(d, 1);
    var m0 :- IntAt(d, 2);
    var m1 :- IntAt(d, 3);
    var c0 :- RawAt(t, 0);
    var c1 :- RawAt(t, 1);
    var r :- RawAt(t, 2);
    Ok(V4Take(id, l, m0, m1, c0, c1, r, deadline, burn))
  }

  function DecodeV4Take(data: bytes, ok: V4Take): Result<V4Take>
  {
    var u :- DecodeModify(data);
    if u.codes != TakeCodes(ok.burn) || |u.params| != (if ok.burn then 3 else 2) then Err
    else
      var d :- DecodeArgs(DECREASE_TYPES, u.params[0]);
      var t :- DecodeArgs(TAKE_TYPES, u.params[1]);
      var x :- ReadV4Take(d, t, u.deadline, ok.burn);
      if !V4TakeWithin(x, ok) then Err
      else if ok.burn then
        var b :- DecodeArgs([UINT], u.params[2]);
        var id :- IntAt(b, 0);
        if id == ok.tokenId then Ok(x) else Err
      else Ok(x)
  }

  /** A struct whose first field is static starts with that field. */
  lemma FirstField(types: seq<AbiType>, vals: seq<Val>, e: bytes) returns (w: bytes, after: bytes)
    requires types != [] && |types| == |vals| && !IsDynamic(types[0]) && Struct(types, vals) == Ok(e)
    ensures EncodeValue(types[0], vals[0]) == Ok(w) && e == w + after
  {
    var parts := EncodeParts(types, vals).value;
    hide EncodeParts, EncodeValue, Heads, HeadSize, Tails, IsDynamic;
    PartsStep(types, vals, parts);
    var n := HeadSize(parts);
    HeadsStepStatic(parts, n, Heads(parts, n).value);
    w, after := parts[0].enc, Heads(parts[1..], n).value + Tails(parts);
  }

  /** The burned position is the first word of the burn parameters. */
  lemma BurnRead(x: V4Take, e: bytes)
    requires Struct(BURN_TYPES, BurnVals(x)) == Ok(e)
    ensures DecodeArgs([UINT], e) == Ok([VInt(x.tokenId)])
  {
    assert AllBase([UINT]) && !IsDynamic(BURN_TYPES[0]) && BURN_TYPES[0] == UINT && BurnVals(x)[0] == VInt(x.tokenId);
    assert |BURN_TYPES| == |BurnVals(x)|;
    hide *;
    var w, after := FirstField(BURN_TYPES, BurnVals(x), e);
    OneWordArgs(VInt(x.tokenId), w);
    ArgsRead([UINT], [VInt(x.tokenId)], w, after);
  }

  lemma {:induction false} OneWordArgs(v: Val, w: bytes)
    requires EncodeValue(UINT, v) == Ok(w)
    ensures EncodeArgs([UINT], [v]) == Ok(w)
  {
    TupleIsArgs([UINT], [v]);
    assert [UINT][1..] == [] && [v][1..] == [] && Tuple([], []) == Ok([]);
    assert w + [] == w;
  }

  lemma TakeFromParts(data: bytes, ok: V4Take, x: V4Take, params: seq<bytes>)
    requires DecodeModify(data) == Ok(Unlocked(TakeCodes(x.burn), params, x.deadline))
    requires |params| == if x.burn then 3 else 2
    requires DecodeArgs(DECREASE_TYPES, params[0]) == Ok(DecreaseVals(x)) && DecodeArgs(TAKE_TYPES, params[1]) == Ok(TakeVals(x))
    requires x.burn ==> DecodeArgs([UINT], params[2]) == Ok([VInt(x.tokenId)])
    ensures DecodeV4Take(data, ok) == if V4TakeWithin(x, ok) then Ok(x) else Err
  {
    assert |TakeCodes(true)| == 3 && |TakeCodes(false)| == 2;
    hide DecodeModify, DecodeArgs, TakeCodes, V4TakeWithin, DecreaseVals, TakeVals, ReadV4Take;
    if x.burn == ok.burn {
      TakeFields(x);
      if V4TakeWithin(x, ok) {
        SameToken4(x, ok);
      }
    } else {
      OtherBurn(x, ok);
    }
  }

  lemma TakeFields(x: V4Take)
    ensures ReadV4Take(DecreaseVals(x), TakeVals(x), x.deadline, x.burn) == Ok(x)
  {}

  lemma SameToken4(x: V4Take, ok: V4Take)
    requires V4TakeWithin(x, ok)
    ensures x.tokenId == ok.tokenId
  {}

  lemma OtherBurn(x: V4Take, ok: V4Take)
    requires x.burn != ok.burn
    ensures !V4TakeWithin(x, ok)
  {}

  /** The remove and claim decoder returns what the builder was given exactly when it is the approved
      position, liquidity, currencies, recipient and burn, with minimums at least the approved ones. */
  lemma V4TakeDecoded(x: V4Take, claim: bool, allowNative: bool, ok: V4Take, data: bytes)
    requires BuildV4Take(x, claim, allowNative) == Ok(data)
    ensures DecodeV4Take(data, ok) == if V4TakeWithin(x, ok) then Ok(x) else Err
  {
    hide *;
    var params := TakeParams(x, claim, allowNative, data);
    TakeTypes();
    ModifyRead(TakeCodes(x.burn), params, x.deadline, data);
    StructRead(DECREASE_TYPES, DecreaseVals(x), params[0]);
    TupleRead(TAKE_TYPES, TakeVals(x), params[1]);
    if x.burn {
      BurnRead(x, params[2]);
    }
    TakeFromParts(data, ok, x, params);
  }

  lemma TakeTypes()
    ensures AllBase(DECREASE_TYPES) && AllStatic(TAKE_TYPES)
  {}

  lemma TakeParams(x: V4Take, claim: bool, allowNative: bool, data: bytes) returns (params: seq<bytes>)
    requires BuildV4Take(x, claim, allowNative) == Ok(data)
    ensures Modify(TakeCodes(x.burn), params, x.deadline) == Ok(data) && |params| == if x.burn then 3 else 2
    ensures |DecreaseVals(x)| == |DECREASE_TYPES| && Struct(DECREASE_TYPES, DecreaseVals(x)) == Ok(params[0])
    ensures |TakeVals(x)| == |TAKE_TYPES| && Tuple(TAKE_TYPES, TakeVals(x)) == Ok(params[1])
    ensures |BurnVals(x)| == |BURN_TYPES| && (x.burn ==> Struct(BURN_TYPES, BurnVals(x)) == Ok(params[2]))
  {
    hide Struct, Tuple, Modify;
    var dec, take := Struct(DECREASE_TYPES, DecreaseVals(x)).value, Tuple(TAKE_TYPES, TakeVals(x)).value;
    params := if x.burn then [dec, take, Struct(BURN_TYPES, BurnVals(x)).value] else [dec, take];
  }
}
