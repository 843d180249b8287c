/** When the liquidity builders succeed: exactly on arguments in the range of their types. */
module LpBuilders {
  import opened Wrappers
  import opened Radix
  import opened Bytes
  import opened Abi
  import opened AbiRoundTrip
  import opened V4Swap
  import opened UniversalRouter
  import opened LpCalldata
  import BitGroups

  /** A value in the range of its base type. */
  predicate Fits(t: AbiType, v: Val)
    requires t.Base?
  {
    match t.kind
    case Address => v.VBytes? && |v.raw| == 20
    case Bool => v.VBool?
    case UInt(bits) => v.VInt? && 0 <= v.i < Pow(2, bits)
    case Int(bits) => bits > 0 && v.VInt? && -(Pow(2, bits - 1) as int) <= v.i < Pow(2, bits - 1)
    case FixedBytes(n) => v.VBytes? && |v.raw| == n
    case _ => v.VBytes? && |v.raw| < WordRange()
  }

  predicate AllFit(types: seq<AbiType>, vals: seq<Val>)
    requires |types| == |vals| && AllBase(types)
  {
    forall i :: 0 <= i < |types| ==> Fits(types[i], vals[i])
  }

  lemma {:induction false} BaseFits(t: AbiType, v: Val)
    requires t.Base? && ValidType(t)
    ensures EncodeValue(t, v).Ok? <==> Fits(t, v)
  {
    match t.kind
    case UInt(bits) => UIntFits(bits, v);
    case Int(bits) => IntFits(bits, v);
    case _ => hide Pow, WordRange;
  }

  lemma WordBits()
    ensures Pow(2, 256) == WordRange()
  {
    BitGroups.PowFacts();
    BitGroups.PowPow(8, WordSize());
  }

  lemma UIntFits(bits: nat, v: Val)
    requires 8 <= bits <= 256
    ensures EncodeBase(UInt(bits), v).Ok? <==> Fits(Base(UInt(bits)), v)
  {
    BitsFitWord(bits);
    hide Pow, WordRange;
  }

  lemma IntFits(bits: nat, v: Val)
    requires 8 <= bits <= 256
    ensures EncodeBase(Int(bits), v).Ok? <==> Fits(Base(Int(bits)), v)
  {
    BitsFitWord(bits);
    assert Pow(2, bits) == 2 * Pow(2, bits - 1);
    hide Pow, WordRange;
  }

  lemma {:induction false} PartsFit(types: seq<AbiType>, vals: seq<Val>)
    requires |types| == |vals| && AllBase(types)
    ensures EncodeParts(types, vals).Ok? <==> AllFit(types, vals)
    decreases |types|
  {
    hide EncodeValue, Fits, IsDynamic;
    if types != [] {
      BaseFits(types[0], vals[0]);
      PartsFit(types[1..], vals[1..]);
      if AllFit(types[1..], vals[1..]) && Fits(types[0], vals[0]) {
        forall i | 0 <= i < |types|
          ensures Fits(types[i], vals[i])
        {
          assert i > 0 ==> types[i] == types[1..][i - 1] && vals[i] == vals[1..][i - 1];
        }
      }
      if AllFit(types, vals) {
        forall i | 0 <= i < |types[1..]|
          ensures Fits(types[1..][i], vals[1..][i])
        {
          assert Fits(types[i + 1], vals[i + 1]);
        }
      }
    }
  }

  /** A static tuple encodes exactly when every value is in range. */
  lemma {:induction false} TupleFits(types: seq<AbiType>, vals: seq<Val>)
    requires |types| == |vals| && AllStatic(types)
    ensures Tuple(types, vals).Ok? <==> AllFit(types, vals)
  {
    hide Tuple, EncodeParts, Fits;
    TupleFlat(types, vals);
    PartsFit(types, vals);
  }

  // ----- v2 and v3 -----

  lemma V2AddBuilds(x: V2Add)
    ensures |V2_ADD_TYPES| == |V2AddVals(x)| && AllStatic(V2_ADD_TYPES)
    ensures BuildV2Add(x).Ok? <==>
            x.aMax > 0 && x.bMax > 0 && x.aMin >= 0 && x.bMin >= 0 && x.deadline > 0 && AllFit(V2_ADD_TYPES, V2AddVals(x))
  {
    assert AllStatic(V2_ADD_TYPES);
    hide Tuple, AllFit;
    TupleFits(V2_ADD_TYPES, V2AddVals(x));
  }

  lemma V2RemoveBuilds(x: V2Remove)
    ensures |V2_REMOVE_TYPES| == |V2RemoveVals(x)| && AllStatic(V2_REMOVE_TYPES)
    ensures BuildV2Remove(x).Ok? <==>
            x.liquidity > 0 && x.aMin >= 0 && x.bMin >= 0 && x.deadline > 0 && AllFit(V2_REMOVE_TYPES, V2RemoveVals(x))
  {
    assert AllStatic(V2_REMOVE_TYPES);
    hide Tuple, AllFit;
    TupleFits(V2_REMOVE_TYPES, V2RemoveVals(x));
  }

  /** Pool fees of v3. */
  predicate V3Fee(fee: int) { fee == 100 || fee == 500 || fee == 3000 || fee == 10000 }

  lemma V3MintBuilds(x: V3Mint)
    ensures |V3_MINT_TYPES| == |V3MintVals(x)| && AllStatic(V3_MINT_TYPES)
    ensures BuildV3Mint(x).Ok? <==>
            && BigEndian(x.token0) < BigEndian(x.token1) && V3Fee(x.fee) && x.tickLower < x.tickUpper
            && x.max0 > 0 && x.max1 > 0 && x.min0 >= 0 && x.min1 >= 0 && x.deadline > 0
            && AllFit(V3_MINT_TYPES, V3MintVals(x))
  {
    assert AllStatic(V3_MINT_TYPES);
    hide Tuple;
    TupleFits(V3_MINT_TYPES, V3MintVals(x));
    if AllFit(V3_MINT_TYPES, V3MintVals(x)) {
      assert Fits(V3_MINT_TYPES[0], V3MintVals(x)[0]) && Fits(V3_MINT_TYPES[1], V3MintVals(x)[1]);
    }
  }

  // ----- sizes of nested encodings -----

  /** Far below the range of a word. */
  predicate Small(n: nat) { n < 0x1_00000000 }

  lemma SmallWord(n: nat)
    requires Small(n)
    ensures Word(n).Ok? && |Word(n).value| == 32
  {
    PowMonotone(256, 4, WordSize());
    assert Pow(256, 4) == 256 * (256 * (256 * (256 * Pow(256, 0))));
  }

  /** Offsets never pass the end of the tail. */
  lemma {:induction false} HeadsFit(parts: seq<Part>, offset: nat)
    requires Small(offset + |Tails(parts)|)
    ensures Heads(parts, offset).Ok?
    decreases |parts|
  {
    hide Word;
    if parts != [] {
      if parts[0].dyn {
        SmallWord(offset);
        HeadsFit(parts[1..], offset + |parts[0].enc|);
      } else {
        HeadsFit(parts[1..], offset);
      }
    }
  }

  lemma BytesFit(raw: bytes)
    requires Small(|raw| + 64)
    ensures EncodeDynamicBytes(raw).Ok? && |EncodeDynamicBytes(raw).value| < |raw| + 64
  {
    SmallWord(|raw|);
    hide Word;
    DynamicBytesParts(raw, EncodeDynamicBytes(raw).value);
  }

  /** At most three byte strings of at most 4096 bytes each. */
  predicate FewSmall(params: seq<bytes>) {
    |params| <= 3 && forall i :: 0 <= i < |params| ==> |params[i]| <= 4096
  }

  function Lengths(params: seq<bytes>): nat { if params == [] then 0 else |params[0]| + Lengths(params[1..]) }

  lemma {:induction false} EachFits(params: seq<bytes>)
    requires FewSmall(params)
    ensures EncodeEach(params).Ok?
    ensures Lengths(params) <= 4096 * |params|
    ensures |Tails(DynParts(EncodeEach(params).value))| <= Lengths(params) + 64 * |params|
    decreases |params|
  {
    hide EncodeDynamicBytes;
    if params != [] {
      assert FewSmall(params[1..]) by {
        forall i | 0 <= i < |params[1..]|
          ensures |params[1..][i]| <= 4096
        {
          assert params[1..][i] == params[i + 1];
        }
      }
      EachFits(params[1..]);
      BytesFit(params[0]);
      var items, rest := EncodeEach(params).value, EncodeEach(params[1..]).value;
      assert DynParts(items)[1..] == DynParts(rest);
    }
  }

  lemma ArrayFits(items: seq<bytes>)
    requires |items| <= 3 && |Tails(DynParts(items))| <= 4160 * 3
    ensures EncDynArray(items).Ok? && |EncDynArray(items).value| == 32 + 32 * |items| + |Tails(DynParts(items))|
  {
    SmallWord(|items|);
    hide Word, Heads, Tails;
    HeadsFit(DynParts(items), 32 * |items|);
    HeadsLength(DynParts(items), 32 * |items|);
  }

  lemma TwoTails(a: bytes, b: bytes)
    ensures Tails([Part(a, true), Part(b, true)]) == a + b && HeadSize([Part(a, true), Part(b, true)]) == 64
  {
    var last := [Part(b, true)];
    assert [Part(a, true), Part(b, true)][1..] == last && last[1..] == [] && Tails([]) == [] && b + [] == b;
    assert Tails(last) == b && HeadSize([]) == 0 && HeadSize(last) == 32;
  }

  lemma PairFits(a: bytes, b: bytes)
    requires Small(64 + |a| + |b|)
    ensures var r := HeadTail([Part(a, true), Part(b, true)]);
            r.Ok? && |r.value| == 64 + |a| + |b|
  {
    var parts := [Part(a, true), Part(b, true)];
    TwoTails(a, b);
    hide Heads, Tails, HeadSize;
    HeadsFit(parts, 64);
    HeadsLength(parts, 64);
  }

  lemma {:induction false} PlanIs(codes: bytes, params: seq<bytes>, a: bytes, items: seq<bytes>, p: bytes)
    requires EncodeDynamicBytes(codes) == Ok(a) && EncodeEach(params) == Ok(items) && EncDynArray(items) == Ok(p)
    ensures EncodePlan(codes, params) == HeadTail([Part(a, true), Part(p, true)])
  {
    hide EncodeDynamicBytes, EncodeEach, EncDynArray, HeadTail;
  }

  lemma {:induction false} PlanFits(codes: bytes, params: seq<bytes>)
    requires |codes| <= 3 && FewSmall(params)
    ensures EncodePlan(codes, params).Ok? && |EncodePlan(codes, params).value| <= Lengths(params) + 500
    ensures Lengths(params) <= 4096 * 3
  {
    assert |params| <= 3;
    hide EncodePlan, EncodeDynamicBytes, EncodeEach, EncDynArray, HeadTail, Tails, DynParts, FewSmall;
    BytesFit(codes);
    EachFits(params);
    var items := EncodeEach(params).value;
    ArrayFits(items);
    PairFits(EncodeDynamicBytes(codes).value, EncDynArray(items).value);
    PlanIs(codes, params, EncodeDynamicBytes(codes).value, items, EncDynArray(items).value);
  }

  /** A struct of base types with short byte strings encodes exactly when its values are in range. */
  lemma {:induction false} StructFits(types: seq<AbiType>, vals: seq<Val>)
    requires |types| == |vals| <= 12 && AllBase(types)
    requires EncodeParts(types, vals).Ok? ==> |Tails(EncodeParts(types, vals).value)| <= 0x10_0000
    ensures Struct(types, vals).Ok? <==> AllFit(types, vals)
  {
    PartsFit(types, vals);
    hide EncodeParts, Heads, Tails, HeadSize, AllFit, AllBase, HeadTail;
    if EncodeParts(types, vals).Ok? {
      var parts := EncodeParts(types, vals).value;
      WordHeads(types, vals, parts);
      HeadTailFits(parts);
    }
  }

  lemma {:induction false} HeadTailFits(parts: seq<Part>)
    requires Small(HeadSize(parts) + |Tails(parts)|)
    ensures HeadTail(parts).Ok?
  {
    HeadsFit(parts, HeadSize(parts));
    hide Heads, Tails, HeadSize;
  }

  /** Length of the tail when only the field at `k` is dynamic. */
  lemma {:induction false} OneTail(types: seq<AbiType>, vals: seq<Val>, parts: seq<Part>, k: nat)
    requires |types| == |vals| && EncodeParts(types, vals) == Ok(parts) && k < |types|
    requires forall i :: 0 <= i < |types| ==> (IsDynamic(types[i]) <==> i == k)
    ensures |parts| == |types| && Tails(parts) == parts[k].enc && EncodeValue(types[k], vals[k]) == Ok(parts[k].enc)
    decreases |types|
  {
    hide EncodeValue, IsDynamic;
    PartsStep(types, vals, parts);
    forall i | 0 <= i < |types[1..]|
      ensures IsDynamic(types[1..][i]) <==> i + 1 == k
    {
      assert types[1..][i] == types[i + 1];
    }
    if k == 0 {
      NoTails(types[1..], vals[1..], parts[1..]);
      assert parts[0].enc + [] == parts[0].enc;
    } else {
      OneTail(types[1..], vals[1..], parts[1..], k - 1);
      assert [] + Tails(parts[1..]) == Tails(parts[1..]);
    }
  }

  lemma {:induction false} NoTails(types: seq<AbiType>, vals: seq<Val>, parts: seq<Part>)
    requires |types| == |vals| && EncodeParts(types, vals) == Ok(parts)
    requires forall i :: 0 <= i < |types| ==> !IsDynamic(types[i])
    ensures Tails(parts) == []
  {
    hide EncodeValue, IsDynamic;
    forall i | 0 <= i < |parts|
      ensures !parts[i].dyn
    {}
    HeadsStatic(parts, 0);
  }

  /** The same with one byte string at `k`. */
  lemma StructWithBytes(types: seq<AbiType>, vals: seq<Val>, k: nat)
    requires |types| == |vals| <= 12 && AllBase(types) && k < |types| && types[k] == BYTES
    requires forall i :: 0 <= i < |types| ==> (IsDynamic(types[i]) <==> i == k)
    requires vals[k].VBytes? && |vals[k].raw| <= 0x1_0000
    ensures Struct(types, vals).Ok? <==> AllFit(types, vals)
  {
    hide EncodeParts, Tails, Struct, AllFit, IsDynamic, EncodeDynamicBytes;
    if EncodeParts(types, vals).Ok? {
      OneTail(types, vals, EncodeParts(types, vals).value, k);
      BytesFit(vals[k].raw);
    }
    StructFits(types, vals);
  }

  // ----- v3 collect and remove -----

  lemma V3CollectBuilds(x: V3Collect)
    ensures |V3_COLLECT_TYPES| == |V3CollectVals(x)| && AllStatic(V3_COLLECT_TYPES)
    ensures BuildV3Collect(x).Ok? <==> x.tokenId > 0 && AllFit(V3_COLLECT_TYPES, V3CollectVals(x))
    ensures BuildV3Collect(x).Ok? ==> |BuildV3Collect(x).value| == 132
  {
    assert AllStatic(V3_COLLECT_TYPES);
    hide Tuple, AllFit;
    TupleFits(V3_COLLECT_TYPES, V3CollectVals(x));
    if BuildV3Collect(x).Ok? {
      TupleLength(V3_COLLECT_TYPES, V3CollectVals(x));
    }
  }

  lemma V3DecreaseBuilds(x: V3Remove)
    ensures |V3_DECREASE_TYPES| == |V3DecreaseVals(x)| && AllStatic(V3_DECREASE_TYPES)
    ensures BuildV3Decrease(x).Ok? <==>
            && x.tokenId > 0 && x.liquidity > 0 && x.min0 >= 0 && x.min1 >= 0 && x.deadline > 0
            && AllFit(V3_DECREASE_TYPES, V3DecreaseVals(x))
    ensures BuildV3Decrease(x).Ok? ==> |BuildV3Decrease(x).value| == 164
  {
    assert AllStatic(V3_DECREASE_TYPES);
    hide Tuple, AllFit;
    TupleFits(V3_DECREASE_TYPES, V3DecreaseVals(x));
    if BuildV3Decrease(x).Ok? {
      TupleLength(V3_DECREASE_TYPES, V3DecreaseVals(x));
    }
  }

  lemma MulticallFits(calls: seq<bytes>)
    requires FewSmall(calls)
    ensures Multicall(calls).Ok?
  {
    assert |calls| <= 3;
    hide FewSmall, EncodeEach, EncDynArray, Tails, DynParts, HeadTail, HeadSize;
    EachFits(calls);
    var items := EncodeEach(calls).value;
    ArrayFits(items);
    var a := EncDynArray(items).value;
    OneDynamicFits(a);
  }

  lemma OneDynamicFits(a: bytes)
    requires Small(32 + |a|)
    ensures HeadTail([Part(a, true)]).Ok?
  {
    var parts := [Part(a, true)];
    assert parts[1..] == [] && HeadSize([]) == 0 && HeadSize(parts) == 32 && Tails([]) == [] && Tails(parts) == a + [];
    HeadTailFits(parts);
  }

  /** A v3 remove can be built exactly when its decrease can and the recipient has 20 bytes. */
  lemma V3RemoveBuilds(x: V3Remove)
    ensures |V3_DECREASE_TYPES| == |V3DecreaseVals(x)| && AllStatic(V3_DECREASE_TYPES)
    ensures BuildV3Remove(x).Ok? <==>
            && x.tokenId > 0 && x.liquidity > 0 && x.min0 >= 0 && x.min1 >= 0 && x.deadline > 0
            && AllFit(V3_DECREASE_TYPES, V3DecreaseVals(x)) && |x.recipient| == 20
  {
    var collect := V3Collect(x.tokenId, x.recipient, MAX_U128, MAX_U128);
    V3DecreaseBuilds(x);
    V3CollectBuilds(collect);
    var dec, col := BuildV3Decrease(x), BuildV3Collect(collect);
    hide BuildV3Decrease, BuildV3Collect, Multicall;
    if dec.Ok? {
      FirstDecrease(x);
      CollectInRange(collect);
      if col.Ok? {
        assert FewSmall([dec.value, col.value]);
        MulticallFits([dec.value, col.value]);
      }
    }
  }

  lemma FirstDecrease(x: V3Remove)
    requires |V3_DECREASE_TYPES| == |V3DecreaseVals(x)| && AllBase(V3_DECREASE_TYPES)
    requires AllFit(V3_DECREASE_TYPES, V3DecreaseVals(x))
    ensures Fits(UINT, VInt(x.tokenId))
  {
    assert Fits(V3_DECREASE_TYPES[0], V3DecreaseVals(x)[0]);
  }

  lemma MaxFits()
    ensures Fits(U128, VInt(MAX_U128))
  {
    BitGroups.PowFacts();
    hide Pow;
    PowAdd(2, 8, 8);
    PowAdd(2, 16, 16);
    PowAdd(2, 32, 32);
    PowAdd(2, 64, 64);
    assert Pow(2, 16) == 0x1_0000 && Pow(2, 32) == 0x1_0000_0000 && Pow(2, 64) == 0x1_0000_0000_0000_0000;
  }

  lemma CollectInRange(c: V3Collect)
    requires c.max0 == c.max1 == MAX_U128 && Fits(UINT, VInt(c.tokenId))
    ensures |V3_COLLECT_TYPES| == |V3CollectVals(c)| && AllBase(V3_COLLECT_TYPES)
    ensures AllFit(V3_COLLECT_TYPES, V3CollectVals(c)) <==> |c.recipient| == 20
  {
    MaxFits();
    assert Fits(V3_COLLECT_TYPES[1], V3CollectVals(c)[1]) <==> |c.recipient| == 20;
    hide Fits;
    assert V3_COLLECT_TYPES[2] == V3_COLLECT_TYPES[3] == U128 && V3_COLLECT_TYPES[0] == UINT;
  }

  // ----- v4 -----

  lemma ModifyFits(codes: bytes, params: seq<bytes>, deadline: int)
    requires 0 < |codes| <= 3 && |params| == |codes| && FewSmall(params)
    ensures Modify(codes, params, deadline).Ok? <==> deadline > 0 && Fits(UINT, VInt(deadline))
  {
    hide EncodePlan, Struct, Fits;
    PlanFits(codes, params);
    var unlock := EncodePlan(codes, params).value;
    var vals := [VBytes(unlock), VInt(deadline)];
    assert AllBase(MODIFY_TYPES) && |MODIFY_TYPES| == |vals| && MODIFY_TYPES[0] == BYTES && MODIFY_TYPES[1] == UINT;
    assert IsDynamic(MODIFY_TYPES[0]) && !IsDynamic(MODIFY_TYPES[1]);
    StructWithBytes(MODIFY_TYPES, vals, 0);
    UnlockFits(unlock);
    assert AllFit(MODIFY_TYPES, vals) <==> Fits(MODIFY_TYPES[0], vals[0]) && Fits(MODIFY_TYPES[1], vals[1]);
  }

  lemma UnlockFits(unlock: bytes)
    requires |unlock| <= 13300
    ensures Fits(BYTES, VBytes(unlock))
  {
    SmallWord(|unlock|);
  }

  /** Lengths of the parameters: whole words. */
  lemma {:induction false} TupleLength(types: seq<AbiType>, vals: seq<Val>)
    requires |types| == |vals| && AllStatic(types) && Tuple(types, vals).Ok?
    ensures |Tuple(types, vals).value| == 32 * |types|
  {
    TupleFlat(types, vals);
    var parts := EncodeParts(types, vals).value;
    hide Tuple, EncodeParts, Flat, HeadSize, Heads, Tails;
    WordHeads(types, vals, parts);
    StaticParts(types, vals, parts);
    FlatIsHead(parts);
  }

  lemma {:induction false} FlatIsHead(parts: seq<Part>)
    requires forall i :: 0 <= i < |parts| ==> !parts[i].dyn
    ensures |Flat(parts)| == HeadSize(parts)
  {
    if parts != [] {
      FlatIsHead(parts[1..]);
    }
  }

  lemma {:induction false} HeadBytes(parts: seq<Part>, offset: nat)
    requires Heads(parts, offset).Ok?
    ensures |Heads(parts, offset).value| == HeadSize(parts)
    decreases |parts|
  {
    hide Word;
    if parts != [] {
      if parts[0].dyn {
        WordValue(offset, Word(offset).value);
        HeadBytes(parts[1..], offset + |parts[0].enc|);
      } else {
        HeadBytes(parts[1..], offset);
      }
    }
  }

  /** A struct of words and the byte string at `k` is its heads and that string. */
  lemma StructLength(types: seq<AbiType>, vals: seq<Val>, k: nat)
    requires |types| == |vals| && AllBase(types) && k < |types| && types[k] == BYTES && vals[k].VBytes?
    requires forall i :: 0 <= i < |types| ==> (IsDynamic(types[i]) <==> i == k)
    requires Struct(types, vals).Ok?
    ensures |Struct(types, vals).value| == 32 * |types| + BytesSpan(|vals[k].raw|)
  {
    var parts := EncodeParts(types, vals).value;
    hide EncodeParts, Heads, Tails, HeadSize, IsDynamic, EncodeDynamicBytes;
    WordHeads(types, vals, parts);
    OneTail(types, vals, parts, k);
    HeadBytes(parts, HeadSize(parts));
    DynamicBytesParts(vals[k].raw, parts[k].enc);
  }

  lemma MintIsStruct(x: V4Add)
    ensures |MINT_TYPES| == |KeyVals(x) + MintRestVals(x)|
    ensures MintParams(x).Ok? ==> MintParams(x) == Struct(MINT_TYPES, KeyVals(x) + MintRestVals(x))
    ensures Struct(MINT_TYPES, KeyVals(x) + MintRestVals(x)).Ok? ==> MintParams(x).Ok?
  {
    MintTypes(x);
    MintSplit(x);
    hide Tuple, Struct, HeadTail, EncodeParts, KeyVals, MintRestVals, AllFit, AllBase, AllStatic;
    TupleFits(KEY_TYPES, KeyVals(x));
    RestTypes();
    PartsFit(MINT_REST, MintRestVals(x));
    if Tuple(KEY_TYPES, KeyVals(x)).Ok? && EncodeParts(MINT_REST, MintRestVals(x)).Ok? {
      JoinedStruct(KEY_TYPES, KeyVals(x), MINT_REST, MintRestVals(x), Tuple(KEY_TYPES, KeyVals(x)).value,
                   EncodeParts(MINT_REST, MintRestVals(x)).value);
    }
    StructNeedsParts(MINT_TYPES, KeyVals(x) + MintRestVals(x));
  }

  lemma StructNeedsParts(types: seq<AbiType>, vals: seq<Val>)
    requires |types| == |vals| && AllBase(types)
    ensures Struct(types, vals).Ok? ==> AllFit(types, vals)
  {
    hide EncodeParts, HeadTail;
    PartsFit(types, vals);
  }

  lemma RestTypes()
    ensures AllBase(MINT_REST)
  {}

  /** In range as a whole means in range in both parts. */
  lemma MintSplit(x: V4Add)
    requires |KEY_TYPES| == |KeyVals(x)| && |MINT_REST| == |MintRestVals(x)|
    requires AllBase(KEY_TYPES) && AllBase(MINT_TYPES) && KEY_TYPES + MINT_REST == MINT_TYPES
    ensures AllBase(MINT_REST)
    ensures AllFit(MINT_TYPES, KeyVals(x) + MintRestVals(x)) ==>
              AllFit(KEY_TYPES, KeyVals(x)) && AllFit(MINT_REST, MintRestVals(x))
  {
    hide Fits, KeyVals, MintRestVals;
    RestTypes();
    var vals := KeyVals(x) + MintRestVals(x);
    if AllFit(MINT_TYPES, vals) {
      forall i | 0 <= i < 5
        ensures Fits(KEY_TYPES[i], KeyVals(x)[i])
      {
        assert Fits(MINT_TYPES[i], vals[i]) && MINT_TYPES[i] == (KEY_TYPES + MINT_REST)[i] == KEY_TYPES[i];
      }
      forall i | 0 <= i < 7
        ensures Fits(MINT_REST[i], MintRestVals(x)[i])
      {
        assert Fits(MINT_TYPES[i + 5], vals[i + 5]) && MINT_TYPES[i + 5] == (KEY_TYPES + MINT_REST)[i + 5] == MINT_REST[i];
      }
    }
  }

  lemma MintLast(x: V4Add)
    ensures AllBase(MINT_TYPES) && |MINT_TYPES| == 12 == |KeyVals(x) + MintRestVals(x)| && MINT_TYPES[11] == BYTES
    ensures (KeyVals(x) + MintRestVals(x))[11] == VBytes([])
    ensures forall i :: 0 <= i < 12 ==> (IsDynamic(MINT_TYPES[i]) <==> i == 11)
  {}

  lemma MintFits(x: V4Add)
    ensures AllBase(MINT_TYPES) && |MINT_TYPES| == |KeyVals(x) + MintRestVals(x)|
    ensures MintParams(x).Ok? <==> AllFit(MINT_TYPES, KeyVals(x) + MintRestVals(x))
    ensures MintParams(x).Ok? ==> |MintParams(x).value| == 416
  {
    hide *;
    var vals := KeyVals(x) + MintRestVals(x);
    MintLast(x);
    MintIsStruct(x);
    StructWithBytes(MINT_TYPES, vals, 11);
    if Struct(MINT_TYPES, vals).Ok? {
      StructLength(MINT_TYPES, vals, 11);
      EmptySpan();
    }
  }

  lemma EmptySpan()
    ensures BytesSpan(0) == 32
  {}

  lemma PairTuple(a: bytes, b: bytes)
    requires |a| == |b| == 20
    ensures var r := Tuple([ADDRESS, ADDRESS], [VBytes(a), VBytes(b)]);
            r.Ok? && |r.value| == 64
  {
    var types, vals := [ADDRESS, ADDRESS], [VBytes(a), VBytes(b)];
    assert AllStatic(types) && AllFit(types, vals);
    hide Tuple, AllFit, AllStatic;
    TupleFits(types, vals);
    TupleLength(types, vals);
  }

  /** A v4 add can be built exactly for sorted currencies, aligned ticks, positive liquidity and deadline,
      and values in the range of their types. */
  lemma V4AddBuilds(x: V4Add, allowNative: bool)
    ensures AllBase(MINT_TYPES) && |MINT_TYPES| == |KeyVals(x) + MintRestVals(x)|
    ensures BuildV4Add(x, allowNative).Ok? <==>
            && |x.currency0| == |x.currency1| == 20 && BigEndian(x.currency0) < BigEndian(x.currency1)
            && (BigEndian(x.currency0) == 0 ==> allowNative)
            && x.tickSpacing != 0 && -0x80_0000 < x.tickSpacing < 0x80_0000 && x.tickLower < x.tickUpper
            && x.tickLower % x.tickSpacing == 0 && x.tickUpper % x.tickSpacing == 0
            && x.liquidity > 0 && x.deadline > 0 && Fits(UINT, VInt(x.deadline)) && AllFit(MINT_TYPES, KeyVals(x) + MintRestVals(x))
  {
    MintFits(x);
    if CurrenciesOk(x.currency0, x.currency1, allowNative) && MintParams(x).Ok? {
      PairTuple(x.currency0, x.currency1);
      var params := [MintParams(x).value, Tuple([ADDRESS, ADDRESS], [VBytes(x.currency0), VBytes(x.currency1)]).value];
      assert FewSmall(params);
      hide MintParams, Tuple, Modify, Fits, AllFit, TicksOk, CurrenciesOk;
      ModifyFits(MINT_SETTLE, params, x.deadline);
    }
  }

  lemma DecreaseFits(x: V4Take)
    ensures AllBase(DECREASE_TYPES) && |DECREASE_TYPES| == |DecreaseVals(x)|
    ensures Struct(DECREASE_TYPES, DecreaseVals(x)).Ok? <==> AllFit(DECREASE_TYPES, DecreaseVals(x))
    ensures Struct(DECREASE_TYPES, DecreaseVals(x)).Ok? ==> |Struct(DECREASE_TYPES, DecreaseVals(x)).value| == 192
  {
    hide Struct, AllFit;
    StructWithBytes(DECREASE_TYPES, DecreaseVals(x), 4);
    if Struct(DECREASE_TYPES, DecreaseVals(x)).Ok? {
      StructLength(DECREASE_TYPES, DecreaseVals(x), 4);
    }
  }

  lemma BurnFits(x: V4Take)
    requires Fits(UINT, VInt(x.tokenId))
    ensures |BURN_TYPES| == |BurnVals(x)| && Struct(BURN_TYPES, BurnVals(x)).Ok?
    ensures |Struct(BURN_TYPES, BurnVals(x)).value| == 160
  {
    BurnInRange(x);
    hide Struct, AllFit, Fits;
    StructWithBytes(BURN_TYPES, BurnVals(x), 3);
    StructLength(BURN_TYPES, BurnVals(x), 3);
  }

  lemma BurnInRange(x: V4Take)
    requires Fits(UINT, VInt(x.tokenId))
    ensures |BURN_TYPES| == |BurnVals(x)| && AllBase(BURN_TYPES) && AllFit(BURN_TYPES, BurnVals(x))
  {
    PowPositive(2, 128);
    PowPositive(256, WordSize());
    hide Pow;
    assert Fits(U128, VInt(0)) && Fits(BYTES, VBytes([]));
    hide Fits;
  }

  lemma TakeFits(x: V4Take)
    requires |x.currency0| == |x.currency1| == 20
    ensures |TAKE_TYPES| == |TakeVals(x)|
    ensures Tuple(TAKE_TYPES, TakeVals(x)).Ok? <==> |x.recipient| == 20
    ensures Tuple(TAKE_TYPES, TakeVals(x)).Ok? ==> |Tuple(TAKE_TYPES, TakeVals(x)).value| == 96
  {
    assert AllStatic(TAKE_TYPES);
    assert AllFit(TAKE_TYPES, TakeVals(x)) <==> |x.recipient| == 20 by {
      assert Fits(TAKE_TYPES[2], TakeVals(x)[2]) <==> |x.recipient| == 20;
    }
    hide Tuple, AllFit, AllStatic;
    TupleFits(TAKE_TYPES, TakeVals(x));
    if Tuple(TAKE_TYPES, TakeVals(x)).Ok? {
      TupleLength(TAKE_TYPES, TakeVals(x));
    }
  }

  lemma FirstFits(x: V4Take)
    requires |DECREASE_TYPES| == |DecreaseVals(x)| && AllBase(DECREASE_TYPES) && AllFit(DECREASE_TYPES, DecreaseVals(x))
    ensures Fits(UINT, VInt(x.tokenId))
  {
    assert Fits(DECREASE_TYPES[0], DecreaseVals(x)[0]);
  }

  /** A v4 remove or claim can be built exactly for sorted currencies, a 20-byte recipient, a positive
      position and deadline, and values in the range of their types. */
  lemma V4TakeBuilds(x: V4Take, claim: bool, allowNative: bool)
    ensures AllBase(DECREASE_TYPES) && |DECREASE_TYPES| == |DecreaseVals(x)|
    ensures BuildV4Take(x, claim, allowNative).Ok? <==>
            && x.tokenId > 0
            && (if claim then x.liquidity == x.min0 == x.min1 == 0 && !x.burn else x.liquidity > 0)
            && |x.currency0| == |x.currency1| == 20 && BigEndian(x.currency0) < BigEndian(x.currency1)
            && (BigEndian(x.currency0) == 0 ==> allowNative)
            && |x.recipient| == 20 && x.deadline > 0 && Fits(UINT, VInt(x.deadline)) && AllFit(DECREASE_TYPES, DecreaseVals(x))
  {
    DecreaseFits(x);
    var dec := Struct(DECREASE_TYPES, DecreaseVals(x));
    if TakeArgsOk(x, claim) && CurrenciesOk(x.currency0, x.currency1, allowNative) && dec.Ok? {
      TakeFits(x);
      FirstFits(x);
      BurnFits(x);
      var take, burn := Tuple(TAKE_TYPES, TakeVals(x)), Struct(BURN_TYPES, BurnVals(x)).value;
      assert |TakeCodes(true)| == 3 && |TakeCodes(false)| == 2;
      if take.Ok? {
        var params := if x.burn then [dec.value, take.value, burn] else [dec.value, take.value];
        assert FewSmall(params);
        hide Struct, Tuple, Modify, Fits, AllFit, TakeArgsOk, CurrenciesOk, TakeCodes, FewSmall;
        ModifyFits(TakeCodes(x.burn), params, x.deadline);
      }
    }
  }
}
