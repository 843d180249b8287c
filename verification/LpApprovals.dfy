/** What a liquidity call is and what approves it, written out: its selector, the standard encoding of its
    arguments by type, and the bounds that decide whether the decoder returns them or refuses. */
module LpApprovals {
  import opened Wrappers
  import opened Bytes
  import opened Abi
  import opened UniversalRouter
  import opened LpCalldata
  import opened LpBuilders

  /** `data` is a call of `selector` with the encoding of `vals`. */
  ghost predicate Calls(data: bytes, selector: bytes, types: seq<AbiType>, vals: seq<Val>) {
    |selector| == 4 && |data| >= 4 && data[..4] == selector && EncodeArgs(types, vals) == Ok(data[4..])
  }

  /** A token that is neither of the two forms of the native currency. */
  predicate Erc20(token: bytes) {
    BigEndian(token) != 0 && BigEndian(token) != 0xeeeeeeeeeeeeeeeeeeeeeeeeeeeeeeeeeeeeeeee
  }

  lemma {:induction false} StaticCalls(selector: bytes, types: seq<AbiType>, vals: seq<Val>, args: bytes)
    requires |selector| == 4 && |types| == |vals| && AllStatic(types) && Tuple(types, vals) == Ok(args)
    ensures Calls(Call(selector, args), selector, types, vals)
  {
    hide Tuple, EncodeArgs;
    TupleIsArgs(types, vals);
    assert Call(selector, args)[..4] == selector && Call(selector, args)[4..] == args;
  }

  /** `addLiquidity` of v2: approved for these two tokens and this wallet, with at most the approved
      amounts and at least the approved minimums. */
  lemma {:induction false} V2AddApproved(x: V2Add, ok: V2Add, data: bytes)
    requires BuildV2Add(x) == Ok(data)
    ensures Calls(data, [0xe8, 0xe3, 0x37, 0x00],
                  [Base(Address), Base(Address), Base(UInt(256)), Base(UInt(256)), Base(UInt(256)), Base(UInt(256)),
                   Base(Address), Base(UInt(256))],
                  [VBytes(x.tokenA), VBytes(x.tokenB), VInt(x.aMax), VInt(x.bMax), VInt(x.aMin), VInt(x.bMin),
                   VBytes(x.to), VInt(x.deadline)])
    ensures DecodeV2Add(data, ok) ==
            if Erc20(ok.tokenA) && Erc20(ok.tokenB) && x.tokenA == ok.tokenA && x.tokenB == ok.tokenB && x.to == ok.to
               && x.aMax <= ok.aMax && x.bMax <= ok.bMax && x.aMin >= ok.aMin && x.bMin >= ok.bMin
            then Ok(x) else Err
  {
    hide Tuple, Calls, Call, DecodeV2Add, BuildV2Add;
    var args := V2AddArgs(x, data);
    StaticCalls(V2_ADD, V2_ADD_TYPES, V2AddVals(x), args);
    V2AddDecoded(x, ok, data);
  }

  /** `removeLiquidity` of v2: exactly the approved liquidity. */
  lemma {:induction false} V2RemoveApproved(x: V2Remove, ok: V2Remove, data: bytes)
    requires BuildV2Remove(x) == Ok(data)
    ensures Calls(data, [0xba, 0xa2, 0xab, 0xde],
                  [Base(Address), Base(Address), Base(UInt(256)), Base(UInt(256)), Base(UInt(256)), Base(Address),
                   Base(UInt(256))],
                  [VBytes(x.tokenA), VBytes(x.tokenB), VInt(x.liquidity), VInt(x.aMin), VInt(x.bMin), VBytes(x.to),
                   VInt(x.deadline)])
    ensures DecodeV2Remove(data, ok) ==
            if Erc20(ok.tokenA) && Erc20(ok.tokenB) && x.tokenA == ok.tokenA && x.tokenB == ok.tokenB && x.to == ok.to
               && x.liquidity == ok.liquidity && x.aMin >= ok.aMin && x.bMin >= ok.bMin
            then Ok(x) else Err
  {
    hide Tuple, Calls, Call, DecodeV2Remove, BuildV2Remove;
    var args := V2RemoveArgs(x, data);
    StaticCalls(V2_REMOVE, V2_REMOVE_TYPES, V2RemoveVals(x), args);
    V2RemoveDecoded(x, ok, data);
  }

  /** `mint` of v3: the approved pool and ticks. */
  lemma {:induction false} V3MintApproved(x: V3Mint, ok: V3Mint, data: bytes)
    requires BuildV3Mint(x) == Ok(data)
    ensures Calls(data, [0x88, 0x31, 0x64, 0x56],
                  [Base(Address), Base(Address), Base(UInt(24)), Base(Int(24)), Base(Int(24)), Base(UInt(256)),
                   Base(UInt(256)), Base(UInt(256)), Base(UInt(256)), Base(Address), Base(UInt(256))],
                  [VBytes(x.token0), VBytes(x.token1), VInt(x.fee), VInt(x.tickLower), VInt(x.tickUpper), VInt(x.max0),
                   VInt(x.max1), VInt(x.min0), VInt(x.min1), VBytes(x.recipient), VInt(x.deadline)])
    ensures DecodeV3Mint(data, ok) ==
            if Erc20(ok.token0) && Erc20(ok.token1) && x.token0 == ok.token0 && x.token1 == ok.token1
               && x.recipient == ok.recipient && x.fee == ok.fee && x.tickLower == ok.tickLower && x.tickUpper == ok.tickUpper
               && x.max0 <= ok.max0 && x.max1 <= ok.max1 && x.min0 >= ok.min0 && x.min1 >= ok.min1
            then Ok(x) else Err
  {
    hide Tuple, Calls, Call, DecodeV3Mint, BuildV3Mint;
    var args := V3MintArgs(x, data);
    StaticCalls(V3_MINT, V3_MINT_TYPES, V3MintVals(x), args);
    V3MintDecoded(x, ok, data);
  }

  lemma {:induction false} CollectCalls(x: V3Collect, data: bytes)
    requires BuildV3Collect(x) == Ok(data)
    ensures Calls(data, [0xfc, 0x6f, 0x78, 0x65], [Base(UInt(256)), Base(Address), Base(UInt(128)), Base(UInt(128))],
                  [VInt(x.tokenId), VBytes(x.recipient), VInt(x.max0), VInt(x.max1)])
  {
    hide Tuple, Calls, Call, BuildV3Collect;
    var args := V3CollectArgs(x, data);
    StaticCalls(V3_COLLECT, V3_COLLECT_TYPES, V3CollectVals(x), args);
  }

  lemma {:induction false} DecreaseCalls(x: V3Remove, data: bytes)
    requires BuildV3Decrease(x) == Ok(data)
    ensures Calls(data, [0x0c, 0x49, 0xcc, 0xbe],
                  [Base(UInt(256)), Base(UInt(128)), Base(UInt(256)), Base(UInt(256)), Base(UInt(256))],
                  [VInt(x.tokenId), VInt(x.liquidity), VInt(x.min0), VInt(x.min1), VInt(x.deadline)])
  {
    hide Tuple, Calls, Call;
    assert AllStatic(V3_DECREASE_TYPES) && |V3_DECREASE_TYPES| == |V3DecreaseVals(x)|;
    var args := Tuple(V3_DECREASE_TYPES, V3DecreaseVals(x)).value;
    StaticCalls(V3_DECREASE, V3_DECREASE_TYPES, V3DecreaseVals(x), args);
  }

  /** `multicall` of v3: a decrease of the approved position and liquidity, then a collect of everything to
      the approved recipient. */
  lemma {:induction false} V3RemoveApproved(x: V3Remove, ok: V3Remove, data: bytes) returns (dec: bytes, col: bytes)
    requires BuildV3Remove(x) == Ok(data)
    ensures Calls(data, [0xac, 0x96, 0x50, 0xd8], [Array(None, Base(DynBytes))], [VList(BytesItems([dec, col]))])
    ensures Calls(dec, [0x0c, 0x49, 0xcc, 0xbe],
                  [Base(UInt(256)), Base(UInt(128)), Base(UInt(256)), Base(UInt(256)), Base(UInt(256))],
                  [VInt(x.tokenId), VInt(x.liquidity), VInt(x.min0), VInt(x.min1), VInt(x.deadline)])
    ensures Calls(col, [0xfc, 0x6f, 0x78, 0x65], [Base(UInt(256)), Base(Address), Base(UInt(128)), Base(UInt(128))],
                  [VInt(x.tokenId), VBytes(x.recipient), VInt(0xFFFFFFFF_FFFFFFFF_FFFFFFFF_FFFFFFFF),
                   VInt(0xFFFFFFFF_FFFFFFFF_FFFFFFFF_FFFFFFFF)])
    ensures DecodeV3Remove(data, ok) ==
            if x.tokenId == ok.tokenId && x.liquidity == ok.liquidity && x.recipient == ok.recipient
               && x.min0 >= ok.min0 && x.min1 >= ok.min1
            then Ok(x) else Err
  {
    dec := BuildV3Decrease(x).value;
    var collect := V3Collect(x.tokenId, x.recipient, MAX_U128, MAX_U128);
    col := BuildV3Collect(collect).value;
    hide Calls, BuildV3Decrease, BuildV3Collect, Multicall, DecodeV3Remove;
    DecreaseCalls(x, dec);
    CollectCalls(collect, col);
    MulticallCalls([dec, col], data);
    V3RemoveDecoded(x, ok, data);
  }

  lemma {:induction false} MulticallCalls(calls: seq<bytes>, data: bytes)
    requires Multicall(calls) == Ok(data)
    ensures Calls(data, [0xac, 0x96, 0x50, 0xd8], [Array(None, Base(DynBytes))], [VList(BytesItems(calls))])
  {
    MulticallIsArgs(calls, data);
    hide Multicall, EncodeArgs;
  }

  /** The call that unlocks a v4 pool: actions and their parameters inside one byte string. */
  ghost predicate Unlocks(data: bytes, codes: bytes, params: seq<bytes>, deadline: int, unlock: bytes) {
    && Calls(data, [0xdd, 0x46, 0x50, 0x8f], [Base(DynBytes), Base(UInt(256))], [VBytes(unlock), VInt(deadline)])
    && EncodeArgs([Base(DynBytes), Array(None, Base(DynBytes))], [VBytes(codes), VList(BytesItems(params))]) == Ok(unlock)
  }

  lemma {:induction false} ModifyUnlocks(codes: bytes, params: seq<bytes>, deadline: int, data: bytes) returns (unlock: bytes)
    requires Modify(codes, params, deadline) == Ok(data)
    ensures Unlocks(data, codes, params, deadline, unlock)
  {
    unlock := EncodePlan(codes, params).value;
    hide EncodePlan, Struct, EncodeArgs;
    ModifyTypes();
    PlanIsArgs(codes, params);
    var vals := [VBytes(unlock), VInt(deadline)];
    assert |MODIFY_TYPES| == |vals|;
    StructIsArgs(MODIFY_TYPES, vals);
    var args := Struct(MODIFY_TYPES, vals).value;
    assert Call(V4_MODIFY, args)[..4] == V4_MODIFY && Call(V4_MODIFY, args)[4..] == args;
  }

  lemma {:induction false} MintIsArgs(x: V4Add, mint: bytes)
    requires MintParams(x) == Ok(mint)
    ensures EncodeArgs([Base(Address), Base(Address), Base(UInt(24)), Base(Int(24)), Base(Address), Base(Int(24)),
                        Base(Int(24)), Base(UInt(256)), Base(UInt(128)), Base(UInt(128)), Base(Address), Base(DynBytes)],
                       [VBytes(x.currency0), VBytes(x.currency1), VInt(x.fee), VInt(x.tickSpacing), VBytes(x.hooks),
                        VInt(x.tickLower), VInt(x.tickUpper), VInt(x.liquidity), VInt(x.max0), VInt(x.max1),
                        VBytes(x.owner), VBytes([])]) == Ok(mint)
  {
    hide MintParams, Tuple, Struct, EncodeArgs, AllStatic, AllBase;
    MintTypes(x);
    MintIsStruct(x);
    var vals := KeyVals(x) + MintRestVals(x);
    StructIsArgs(MINT_TYPES, vals);
    assert vals == [VBytes(x.currency0), VBytes(x.currency1), VInt(x.fee), VInt(x.tickSpacing), VBytes(x.hooks),
                    VInt(x.tickLower), VInt(x.tickUpper), VInt(x.liquidity), VInt(x.max0), VInt(x.max1),
                    VBytes(x.owner), VBytes([])];
  }

  lemma {:induction false} AddParts(x: V4Add, allowNative: bool, data: bytes) returns (mint: bytes, settle: bytes)
    requires BuildV4Add(x, allowNative) == Ok(data)
    ensures MintParams(x) == Ok(mint) && Modify(MINT_SETTLE, [mint, settle], x.deadline) == Ok(data)
    ensures EncodeArgs([Base(Address), Base(Address)], [VBytes(x.currency0), VBytes(x.currency1)]) == Ok(settle)
  {
    hide Modify, MintParams, Tuple, EncodeArgs;
    mint := MintParams(x).value;
    var pair := [VBytes(x.currency0), VBytes(x.currency1)];
    settle := Tuple([ADDRESS, ADDRESS], pair).value;
    TupleIsArgs([ADDRESS, ADDRESS], pair);
  }

  /** `modifyLiquidities` of v4 for an add: mint, then settle both currencies. The pool has no hooks, and
      a native first currency is paid by the value. */
  lemma {:induction false} V4AddApproved(x: V4Add, allowNative: bool, ok: AddBounds, data: bytes)
    returns (unlock: bytes, mint: bytes, settle: bytes)
    requires BuildV4Add(x, allowNative) == Ok(data)
    ensures Unlocks(data, [0x02, 0x0D], [mint, settle], x.deadline, unlock)
    ensures EncodeArgs([Base(Address), Base(Address), Base(UInt(24)), Base(Int(24)), Base(Address), Base(Int(24)),
                        Base(Int(24)), Base(UInt(256)), Base(UInt(128)), Base(UInt(128)), Base(Address), Base(DynBytes)],
                       [VBytes(x.currency0), VBytes(x.currency1), VInt(x.fee), VInt(x.tickSpacing), VBytes(x.hooks),
                        VInt(x.tickLower), VInt(x.tickUpper), VInt(x.liquidity), VInt(x.max0), VInt(x.max1),
                        VBytes(x.owner), VBytes([])]) == Ok(mint)
    ensures EncodeArgs([Base(Address), Base(Address)], [VBytes(x.currency0), VBytes(x.currency1)]) == Ok(settle)
    ensures DecodeV4Add(data, ok) ==
            if x.currency0 == ok.currency0 && x.currency1 == ok.currency1 && BigEndian(x.hooks) == 0 && x.owner == ok.wallet
               && x.max0 <= ok.cap0 && x.max1 <= ok.cap1
               && (if BigEndian(x.currency0) == 0 then x.max0 <= ok.value <= ok.cap0 else ok.value == 0)
            then Ok(x) else Err
  {
    hide Modify, MintParams, EncodeArgs, Unlocks, DecodeV4Add, BuildV4Add, BigEndian;
    V4AddDecoded(x, allowNative, ok, data);
    mint, settle := AddParts(x, allowNative, data);
    unlock := ModifyUnlocks(MINT_SETTLE, [mint, settle], x.deadline, data);
    MintIsArgs(x, mint);
  }

  /** `modifyLiquidities` of v4 for a remove or a claim: decrease, take both currencies, and burn if asked. */
  lemma {:induction false} V4TakeApproved(x: V4Take, claim: bool, allowNative: bool, ok: V4Take, data: bytes)
    returns (unlock: bytes, params: seq<bytes>)
    requires BuildV4Take(x, claim, allowNative) == Ok(data)
    ensures |params| == (if x.burn then 3 else 2)
    ensures Unlocks(data, if x.burn then [0x01, 0x11, 0x03] else [0x01, 0x11], params, x.deadline, unlock)
    ensures EncodeArgs([Base(UInt(256)), Base(UInt(256)), Base(UInt(128)), Base(UInt(128)), Base(DynBytes)],
                       [VInt(x.tokenId), VInt(x.liquidity), VInt(x.min0), VInt(x.min1), VBytes([])]) == Ok(params[0])
    ensures EncodeArgs([Base(Address), Base(Address), Base(Address)],
                       [VBytes(x.currency0), VBytes(x.currency1), VBytes(x.recipient)]) == Ok(params[1])
    ensures x.burn ==> EncodeArgs([Base(UInt(256)), Base(UInt(128)), Base(UInt(128)), Base(DynBytes)],
                                  [VInt(x.tokenId), VInt(0), VInt(0), VBytes([])]) == Ok(params[2])
    ensures DecodeV4Take(data, ok) ==
            if x.tokenId == ok.tokenId && x.liquidity == ok.liquidity && x.min0 >= ok.min0 && x.min1 >= ok.min1
               && x.currency0 == ok.currency0 && x.currency1 == ok.currency1 && x.recipient == ok.recipient && x.burn == ok.burn
            then Ok(x) else Err
  {
    TakeTypes();
    assert AllBase(BURN_TYPES);
    assert TakeCodes(x.burn) == if x.burn then [0x01, 0x11, 0x03] else [0x01, 0x11];
    hide Modify, Tuple, Struct, EncodeArgs, Unlocks, DecodeV4Take, AllStatic, AllBase, BuildV4Take;
    params := TakeParams(x, claim, allowNative, data);
    V4TakeDecoded(x, claim, allowNative, ok, data);
    unlock := ModifyUnlocks(TakeCodes(x.burn), params, x.deadline, data);
    StructIsArgs(DECREASE_TYPES, DecreaseVals(x));
    TupleIsArgs(TAKE_TYPES, TakeVals(x));
    StructIsArgs(BURN_TYPES, BurnVals(x));
  }
}
