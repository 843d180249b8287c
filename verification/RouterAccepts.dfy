/** The checker is not vacuously sound: it accepts the plain swap and the V4 batch it was written for, and
    both run. And its soundness needs its two conditions: an accepted call of each kind that is not safe. */
module RouterAccepts {
  import opened Wrappers
  import opened Radix
  import opened Bytes
  import opened Abi
  import opened AbiRoundTrip
  import opened V4Swap
  import opened UniversalRouter
  import opened CallMeaning
  import opened RouterRun
  import opened LpBuilders
  import opened LpCalldata

  const V2_SWAP_TYPES := [ADDRESS, UINT, UINT, Array(None, ADDRESS), Base(Bool)]

  /** The arguments of one exact-input v2 swap, paid by the user. */
  function SwapVals(recipient: bytes, amountIn: nat, minOut: nat, sell: bytes, buy: bytes): seq<Val> {
    [VBytes(recipient), VInt(amountIn), VInt(minOut), VList([VBytes(sell), VBytes(buy)]), VBool(true)]
  }

  predicate SwapArgs(recipient: bytes, amountIn: nat, minOut: nat, sell: bytes, buy: bytes) {
    |recipient| == |sell| == |buy| == 20 && amountIn < WordRange() && minOut < WordRange()
  }

  lemma PairEncodes(a: bytes, b: bytes)
    requires |a| == |b| == 20
    ensures var e := EncodeValue(Array(None, ADDRESS), VList([VBytes(a), VBytes(b)]));
            e.Ok? && |e.value| == 96
  {
    var items := [VBytes(a), VBytes(b)];
    var wa, wb := ZeroBytes(12) + a, ZeroBytes(12) + b;
    var parts := [Part(wa, false), Part(wb, false)];
    assert items[1..] == [VBytes(b)] && items[1..][1..] == [];
    assert EncodeItems(ADDRESS, []) == Ok([]);
    assert [Part(wb, false)] + [] == [Part(wb, false)];
    assert EncodeItems(ADDRESS, items[1..]) == Ok([Part(wb, false)]);
    assert [Part(wa, false)] + [Part(wb, false)] == parts;
    assert EncodeItems(ADDRESS, items) == Ok(parts);
    HeadsStatic(parts, 64);
    assert parts[1..] == [Part(wb, false)] && parts[1..][1..] == [] && Flat([]) == [];
    assert Flat([Part(wb, false)]) == wb + [] && Flat(parts) == wa + (wb + []);
    SmallWord(2);
  }

  lemma WordsEncode(recipient: bytes, amountIn: nat, minOut: nat, sell: bytes, buy: bytes)
    requires SwapArgs(recipient, amountIn, minOut, sell, buy)
    ensures var v := SwapVals(recipient, amountIn, minOut, sell, buy);
            && EncodeValue(ADDRESS, v[0]).Ok? && |EncodeValue(ADDRESS, v[0]).value| == 32
            && EncodeValue(UINT, v[1]).Ok? && |EncodeValue(UINT, v[1]).value| == 32
            && EncodeValue(UINT, v[2]).Ok? && |EncodeValue(UINT, v[2]).value| == 32
            && EncodeValue(Base(Bool), v[4]).Ok? && |EncodeValue(Base(Bool), v[4]).value| == 32
  {
    WordBits();
    hide Pow;
  }

  lemma InputEncodes(recipient: bytes, amountIn: nat, minOut: nat, sell: bytes, buy: bytes)
    requires SwapArgs(recipient, amountIn, minOut, sell, buy)
    ensures var e := EncodeArgs(V2_SWAP_TYPES, SwapVals(recipient, amountIn, minOut, sell, buy));
            e.Ok? && |e.value| == 256
  {
    var v := SwapVals(recipient, amountIn, minOut, sell, buy);
    PairEncodes(sell, buy);
    WordsEncode(recipient, amountIn, minOut, sell, buy);
    var e0, e1, e2 := EncodeValue(ADDRESS, v[0]).value, EncodeValue(UINT, v[1]).value, EncodeValue(UINT, v[2]).value;
    var e3, e4 := EncodeValue(Array(None, ADDRESS), v[3]).value, EncodeValue(Base(Bool), v[4]).value;
    var parts := [Part(e0, false), Part(e1, false), Part(e2, false), Part(e3, true), Part(e4, false)];
    FiveParts(v, parts);
    FiveLayout(parts);
  }

  /** Part for part, the encodings of the values. */
  ghost predicate EncodedBy(types: seq<AbiType>, v: seq<Val>, parts: seq<Part>) {
    && |types| == |v| == |parts|
    && forall j :: 0 <= j < |types| ==>
         EncodeValue(types[j], v[j]) == Ok(parts[j].enc) && (parts[j].dyn <==> IsDynamic(types[j]))
  }

  lemma {:induction false} FiveParts(v: seq<Val>, parts: seq<Part>)
    requires |v| == |parts| == 5
    requires forall k :: 0 <= k < 5 ==> EncodeValue(V2_SWAP_TYPES[k], v[k]) == Ok(parts[k].enc) && (parts[k].dyn <==> k == 3)
    ensures EncodeParts(V2_SWAP_TYPES, v) == Ok(parts)
  {
    SwapDynamic();
    hide EncodeValue, IsDynamic, EncodeParts;
    PartsAre(V2_SWAP_TYPES, v, parts);
  }

  lemma SwapDynamic()
    ensures |V2_SWAP_TYPES| == 5 && forall k :: 0 <= k < 5 ==> (IsDynamic(V2_SWAP_TYPES[k]) <==> k == 3)
  {}

  lemma EncodedTail(types: seq<AbiType>, v: seq<Val>, parts: seq<Part>)
    requires types != [] && EncodedBy(types, v, parts)
    ensures |types| == |v| == |parts| && EncodedBy(types[1..], v[1..], parts[1..])
    ensures EncodeValue(types[0], v[0]) == Ok(parts[0].enc) && parts[0] == Part(parts[0].enc, IsDynamic(types[0]))
  {
    hide EncodeValue, IsDynamic;
    forall j | 0 <= j < |types[1..]|
      ensures EncodeValue(types[1..][j], v[1..][j]) == Ok(parts[1..][j].enc)
      ensures parts[1..][j].dyn <==> IsDynamic(types[1..][j])
    {
      assert types[1..][j] == types[j + 1] && v[1..][j] == v[j + 1] && parts[1..][j] == parts[j + 1];
    }
  }

  lemma {:induction false} NoneEncoded(types: seq<AbiType>, v: seq<Val>, parts: seq<Part>)
    requires types == [] && EncodedBy(types, v, parts)
    ensures v == [] && parts == [] && EncodeParts(types, v) == Ok(parts)
  {}

  lemma {:induction false} PartsAre(types: seq<AbiType>, v: seq<Val>, parts: seq<Part>)
    requires |types| == |v| && EncodedBy(types, v, parts)
    ensures EncodeParts(types, v) == Ok(parts)
    decreases |types|
  {
    hide *;
    if types == [] {
      NoneEncoded(types, v, parts);
    } else {
      EncodedTail(types, v, parts);
      PartsAre(types[1..], v[1..], parts[1..]);
      PartsCons(types[0], v[0], types[1..], v[1..], parts[0].enc, parts[1..]);
      assert types == [types[0]] + types[1..] && v == [v[0]] + v[1..];
      assert parts == [parts[0]] + parts[1..];
    }
  }

  lemma FiveLayout(parts: seq<Part>)
    requires |parts| == 5 && |parts[3].enc| == 96
    requires forall k :: 0 <= k < 5 ==> (parts[k].dyn <==> k == 3) && (k != 3 ==> |parts[k].enc| == 32)
    ensures Layout(parts).Ok? && |Layout(parts).value| == 256
  {
    var p1 := parts[1..];
    var p2 := p1[1..];
    var p3 := p2[1..];
    var p4 := p3[1..];
    assert p4[1..] == [] && Tails([]) == [] && HeadSize([]) == 0;
    assert p3[0] == parts[3] && p4[0] == parts[4] && p2[0] == parts[2] && p1[0] == parts[1];
    assert Tails(p4) == [] && Tails(p3) == parts[3].enc + [] && Tails(p2) == [] + Tails(p3) && Tails(p1) == [] + Tails(p2)
        && Tails(parts) == [] + Tails(p1);
    assert HeadSize(p4) == 32 && HeadSize(p3) == 64 && HeadSize(p2) == 96 && HeadSize(p1) == 128 && HeadSize(parts) == 160;
    HeadsFit(parts, 160);
    HeadBytes(parts, 160);
  }

  /** The call data of a router call with that one swap. */
  function PlainSwap(recipient: bytes, amountIn: nat, minOut: nat, sell: bytes, buy: bytes): Result<bytes>
  {
    var input :- EncodeArgs(V2_SWAP_TYPES, SwapVals(recipient, amountIn, minOut, sell, buy));
    EncodePlan([0x08], [input])
  }

  lemma SwapTypes()
    ensures Aligned(V2_SWAP_TYPES)
    ensures forall k :: 0 <= k < |V2_SWAP_TYPES| ==> ValidType(V2_SWAP_TYPES[k]) && Supported(V2_SWAP_TYPES[k])
  {
    assert forall k :: 0 <= k < |V2_SWAP_TYPES| ==> HeadWords(V2_SWAP_TYPES[k]) == 1 || IsDynamic(V2_SWAP_TYPES[k]);
  }

  lemma SwapRead(recipient: bytes, amountIn: nat, minOut: nat, sell: bytes, buy: bytes, input: bytes)
    requires EncodeArgs(V2_SWAP_TYPES, SwapVals(recipient, amountIn, minOut, sell, buy)) == Ok(input)
    ensures ReadCommand(0x08, input) ==
            Ok(Swap(BigEndian(recipient), amountIn, minOut, BigEndian(sell), BigEndian(buy), true))
  {
    hide EncodeArgs, DecodeArgs, BigEndian;
    SwapTypes();
    RoundTrip(V2_SWAP_TYPES, SwapVals(recipient, amountIn, minOut, sell, buy), []);
    assert input + [] == input;
  }

  /** One approved swap of the sell token into the buy token, with recipient the wallet, the exact sell
      amount and a sufficient minimum, is encoded and accepted with that minimum. */
  lemma PlainSwapAccepted(i: Intent, recipient: bytes, minOut: nat, sell: bytes, buy: bytes)
    requires SwapArgs(recipient, i.sellAmount, minOut, sell, buy) && i.sellAmount != CONTRACT_BALANCE
    requires i.wallet == BigEndian(recipient) && i.sellToken == BigEndian(sell) && i.buyToken == BigEndian(buy)
    requires !IsNative(i.sellToken) && !IsNative(i.buyToken) && minOut >= i.minBuy
    ensures var args := PlainSwap(recipient, i.sellAmount, minOut, sell, buy);
            args.Ok? && CheckExecute(i, false, args.value) == Ok(minOut)
  {
    hide BigEndian, EncodeArgs, EncodePlan, ReadCommand, DecodeArgs, PlanOf;
    InputEncodes(recipient, i.sellAmount, minOut, sell, buy);
    var input := EncodeArgs(V2_SWAP_TYPES, SwapVals(recipient, i.sellAmount, minOut, sell, buy)).value;
    PlanFits([0x08], [input]);
    var args := EncodePlan([0x08], [input]).value;
    PlanRead(args, [0x08], [input]);
    SwapRead(recipient, i.sellAmount, minOut, sell, buy, input);
    var codes: bytes, inputs: seq<bytes> := [0x08], [input];
    assert codes[..0] == [] && inputs[..0] == [];
    assert CheckCommands(i, [], []) == Ok(NOTHING);
    var c := Swap(i.wallet, i.sellAmount, minOut, i.sellToken, i.buyToken, true);
    assert Contribution(i, c) == Ok(NOTHING.(userIn := i.sellAmount, delivered := minOut));
    assert CheckOne(i, 0x08, input) == Ok(NOTHING.(userIn := i.sellAmount, delivered := minOut));
  }

  /** What that call means: one swap command with these words. */
  lemma PlainSwapMeans(recipient: bytes, amountIn: nat, minOut: nat, sell: bytes, buy: bytes, args: bytes)
    requires PlainSwap(recipient, amountIn, minOut, sell, buy) == Ok(args)
    ensures exists input ::
              && CallMeans(args, [0x08], [input])
              && AllMean([0x08], [input], [Swap(BigEndian(recipient), amountIn, minOut, BigEndian(sell), BigEndian(buy), true)])
  {
    hide BigEndian, EncodeArgs, EncodePlan, ReadCommand, DecodeArgs, PlanOf, CallMeans, Means;
    var input := EncodeArgs(V2_SWAP_TYPES, SwapVals(recipient, amountIn, minOut, sell, buy)).value;
    PlanRead(args, [0x08], [input]);
    CallRead(false, args, [0x08], [input]);
    SwapRead(recipient, amountIn, minOut, sell, buy, input);
    var c := Swap(BigEndian(recipient), amountIn, minOut, BigEndian(sell), BigEndian(buy), true);
    CommandMeaning(0x08, input, c, c);
  }

  function Put(l: Ledger, a: Asset, d: int): Ledger { b => l(b) + if a == b then d else 0 }

  /** And it runs: the swap takes exactly the sell amount from the wallet and pays exactly the minimum
      to its recipient. */
  lemma PlainSwapRuns(ch: Chain, c: Command, before: World) returns (ws: seq<World>)
    requires c.Swap? && c.byUser
    ensures Executes(ch, 0, [c], before, ws) && |ws| == 2
    ensures var got := if PartyOf(ch.wallet, c.recipient) == Wallet then c.minOut else 0;
            Unmoved(Put(Put(before.wallet, Token(c.tokenIn), -(c.amountIn as int)), Token(c.tokenOut), got), ws[1].wallet)
  {
    var p, x: nat, y: nat, none: nat := PartyOf(ch.wallet, c.recipient), c.amountIn, c.minOut, 0;
    var a, b := Token(c.tokenIn), Token(c.tokenOut);
    var middle := World(Put(before.wallet, a, -(x as int)), before.router);
    var after := World(Put(middle.wallet, b, if p == Wallet then y else 0), Put(middle.router, b, if p == Router then y else 0));
    ws := [before, after];
    assert Credited(before, middle, Wallet, a, -(x as int)) && Credited(middle, after, p, b, y);
    assert Exchanged(before, after, Payer(c.byUser), a, x, p, b, y);
    assert Credited(before, before, Wallet, Native, -(none as int)) && Credited(before, before, Router, Native, none);
    assert Exchanged(before, ws[0], Wallet, Native, none, Router, Native, none);
  }

  /** Why the wallet must not be address 2: the checker takes a recipient equal to the wallet for the
      wallet, the chain takes 2 for the router. The plain swap is accepted, and it has a run in which
      the wallet pays and gets nothing. */
  lemma SentinelWallet(i: Intent, ch: Chain, recipient: bytes, minOut: nat, sell: bytes, buy: bytes, before: World)
    returns (args: bytes, input: bytes, c: Command, ws: seq<World>)
    requires SwapArgs(recipient, i.sellAmount, minOut, sell, buy) && i.sellAmount != CONTRACT_BALANCE
    requires i.sellToken == BigEndian(sell) && i.buyToken == BigEndian(buy)
    requires !IsNative(i.sellToken) && !IsNative(i.buyToken) && minOut >= i.minBuy && minOut > 0 && ValueFits(i)
    requires i.wallet == ch.wallet == BigEndian(recipient) == ADDRESS_THIS
    ensures CheckExecute(i, false, args) == Ok(minOut)
    ensures CallMeans(args, [0x08], [input]) && AllMean([0x08], [input], [c]) && Executes(ch, i.value, [c], before, ws)
    ensures !Safe(i, before.wallet, ws[1].wallet, i.sellAmount, minOut)
  {
    hide BigEndian, PlainSwap, CheckExecute, CallMeans, AllMean, Executes;
    PlainSwapAccepted(i, recipient, minOut, sell, buy);
    args := PlainSwap(recipient, i.sellAmount, minOut, sell, buy).value;
    c := Swap(i.wallet, i.sellAmount, minOut, i.sellToken, i.buyToken, true);
    PlainSwapMeans(recipient, i.sellAmount, minOut, sell, buy, args);
    input :| CallMeans(args, [0x08], [input]) && AllMean([0x08], [input], [c]);
    ws := PlainSwapRuns(ch, c, before);
    assert PartyOf(ch.wallet, c.recipient) == Router;
    assert ws[1].wallet(Leg(i.buyToken)) < before.wallet(Leg(i.buyToken)) + minOut
                                            - if Leg(i.buyToken) == Leg(i.sellToken) then i.sellAmount else 0;
  }

  // ----- a V4 batch -----

  /** One swap over two pools through `mid`, without hooks. */
  function TwoHop(currencyIn: nat, mid: nat, currencyOut: nat, amount: nat, min: nat): ExactInput {
    ExactInput(currencyIn, [PathKey(mid, 0, 1, 0, []), PathKey(currencyOut, 0, 1, 0, [])], amount, min)
  }

  predicate TwoHopArgs(currencyIn: nat, mid: nat, currencyOut: nat, amount: nat, min: nat) {
    currencyIn < UINT160 && mid < UINT160 && currencyOut < UINT160 && 0 < amount < UINT128 && min < UINT128
  }

  function TwoWords(a: nat, b: nat): Result<bytes>
  {
    var x :- Word(a);
    var y :- Word(b);
    Ok(x + y)
  }

  const TWO_HOP_CODES: bytes := [0x07, 0x0C, 0x0F]

  function TwoHopActions(currencyIn: nat, currencyOut: nat, amount: nat, min: nat): seq<Action> {
    [Swap4(currencyIn, currencyOut, amount, min), SettleAll(currencyIn, amount), TakeAll(currencyOut, 0)]
  }

  /** The swap, a settle of everything owed, at most the input, and a take of everything earned. */
  function TwoHopInput(currencyIn: nat, mid: nat, currencyOut: nat, amount: nat, min: nat): Result<bytes>
  {
    var swap :- EncodeExactIn(TwoHop(currencyIn, mid, currencyOut, amount, min));
    var settle :- TwoWords(currencyIn, amount);
    var take :- TwoWords(currencyOut, 0);
    EncodePlan(TWO_HOP_CODES, [swap, settle, take])
  }

  function TwoHopCall(currencyIn: nat, mid: nat, currencyOut: nat, amount: nat, min: nat): Result<bytes>
  {
    var input :- TwoHopInput(currencyIn, mid, currencyOut, amount, min);
    EncodePlan([0x10], [input])
  }

  lemma NumberEncodes(n: nat)
    requires n < UINT160
    ensures Word(n).Ok? && |Word(n).value| == 32
  {
    AddressRange();
    PowMonotone(256, 20, WordSize());
    hide Pow;
  }

  lemma KeyEncodes(currency: nat)
    requires currency < UINT160
    ensures ValidKey(PathKey(currency, 0, 1, 0, []))
    ensures EncodeKey(PathKey(currency, 0, 1, 0, [])).Ok? && |EncodeKey(PathKey(currency, 0, 1, 0, [])).value| == 192
  {
    var none: bytes := [];
    NumberEncodes(currency);
    NumberEncodes(0);
    NumberEncodes(1);
    NumberEncodes(160);
    BytesFit(none);
    hide Word, HeadTail, EncodeDynamicBytes;
    var hd := EncodeDynamicBytes(none).value;
    DynamicBytesParts(none, hd);
    assert BytesSpan(|none|) == 32;
    OneDynamic(EncodeKeyHead(PathKey(currency, 0, 1, 0, none)).value, hd);
  }

  lemma KeysEncode(a: nat, b: nat)
    requires a < UINT160 && b < UINT160
    ensures var keys := [PathKey(a, 0, 1, 0, []), PathKey(b, 0, 1, 0, [])];
            EncodeKeys(keys).Ok? && EncDynArray(EncodeKeys(keys).value).Ok? && |EncDynArray(EncodeKeys(keys).value).value| == 480
  {
    var keys := [PathKey(a, 0, 1, 0, []), PathKey(b, 0, 1, 0, [])];
    KeyEncodes(a);
    KeyEncodes(b);
    hide EncodeKey, EncDynArray;
    var x, y := EncodeKey(keys[0]).value, EncodeKey(keys[1]).value;
    assert keys[1..] == [keys[1]] && keys[1..][1..] == [] && EncodeKeys([]) == Ok([]);
    assert EncodeKeys(keys[1..]) == Ok([y] + []) && [y] + [] == [y];
    assert EncodeKeys(keys) == Ok([x] + [y]) && [x] + [y] == [x, y];
    assert DynParts([x, y]) == [Part(x, true), Part(y, true)];
    TwoTails(x, y);
    ArrayFits([x, y]);
  }

  lemma SwapEncodes(currencyIn: nat, mid: nat, currencyOut: nat, amount: nat, min: nat)
    requires TwoHopArgs(currencyIn, mid, currencyOut, amount, min)
    ensures var x := TwoHop(currencyIn, mid, currencyOut, amount, min);
            ValidExactInput(x) && EncodeExactIn(x).Ok? && |EncodeExactIn(x).value| == 640
  {
    NumberEncodes(32);
    NumberEncodes(128);
    NumberEncodes(currencyIn);
    NumberEncodes(amount);
    NumberEncodes(min);
    KeyEncodes(mid);
    KeyEncodes(currencyOut);
    KeysEncode(mid, currencyOut);
    hide Word, HeadTail, EncodeKeys, EncDynArray, ValidKey, EncodeKey;
    var x := TwoHop(currencyIn, mid, currencyOut, amount, min);
    DynamicSecond(Word(currencyIn).value, EncDynArray(EncodeKeys(x.path).value).value, Word(amount).value, Word(min).value);
  }

  lemma PairEncoded(currency: nat, n: nat)
    requires currency < UINT160 && n < UINT128
    ensures var r := TwoWords(currency, n);
            r.Ok? && |r.value| == 64 && ReadUInt(r.value, 0, UINT160) == Ok(currency) && ReadNat(r.value, 32) == Ok(n)
  {
    NumberEncodes(currency);
    NumberEncodes(n);
    var x, y := Word(currency).value, Word(n).value;
    hide Word, ReadUInt, ReadNat;
    StandsInside([], x, y);
    StandsInside(x, y, []);
    assert [] + x + y == x + y + [] == x + y;
    UIntRead(currency, x, x + y, 0, UINT160);
    ReadNatAt(n, y, x + y, 32);
  }

  /** The input of the batch is encoded, and reads as its three actions. */
  lemma TwoHopRead(currencyIn: nat, mid: nat, currencyOut: nat, amount: nat, min: nat) returns (input: bytes)
    requires TwoHopArgs(currencyIn, mid, currencyOut, amount, min)
    ensures TwoHopInput(currencyIn, mid, currencyOut, amount, min) == Ok(input) && |input| <= 4096
    ensures ReadCommand(0x10, input) == Ok(V4(TwoHopActions(currencyIn, currencyOut, amount, min)))
  {
    hide *;
    var x := TwoHop(currencyIn, mid, currencyOut, amount, min);
    ArgsInRange(currencyIn, mid, currencyOut, amount, min);
    SwapEncodes(currencyIn, mid, currencyOut, amount, min);
    PairEncoded(currencyIn, amount);
    PairEncoded(currencyOut, 0);
    var p, s, t := EncodeExactIn(x).value, TwoWords(currencyIn, amount).value, TwoWords(currencyOut, 0).value;
    ThreeLengths(p, s, t);
    ThreeSmall(p, s, t);
    PlanFits(TWO_HOP_CODES, [p, s, t]);
    input := EncodePlan(TWO_HOP_CODES, [p, s, t]).value;
    InputIs(currencyIn, mid, currencyOut, amount, min);
    PlanRead(input, TWO_HOP_CODES, [p, s, t]);
    SwapActionRead(currencyIn, mid, currencyOut, amount, min, p);
    EndActionsRead(currencyIn, amount, s, currencyOut, 0, t);
    var actions := TwoHopActions(currencyIn, currencyOut, amount, min);
    ActionsAre(currencyIn, currencyOut, amount, min);
    ThreeActions(TWO_HOP_CODES, [p, s, t], actions[0], actions[1], actions[2]);
    BatchCommand(input, TWO_HOP_CODES, [p, s, t], actions);
  }

  lemma ArgsInRange(currencyIn: nat, mid: nat, currencyOut: nat, amount: nat, min: nat)
    requires TwoHopArgs(currencyIn, mid, currencyOut, amount, min)
    ensures currencyIn < UINT160 && currencyOut < UINT160 && amount < UINT128 && 0 < UINT128
  {}

  lemma ThreeSmall(a: bytes, b: bytes, c: bytes)
    requires |a| <= 4096 && |b| <= 4096 && |c| <= 4096
    ensures FewSmall([a, b, c]) && |TWO_HOP_CODES| == 3
    ensures TWO_HOP_CODES[0] == 7 && TWO_HOP_CODES[1] == 0x0C && TWO_HOP_CODES[2] == 0x0F
  {}

  lemma InputIs(currencyIn: nat, mid: nat, currencyOut: nat, amount: nat, min: nat)
    requires EncodeExactIn(TwoHop(currencyIn, mid, currencyOut, amount, min)).Ok?
    requires TwoWords(currencyIn, amount).Ok? && TwoWords(currencyOut, 0).Ok?
    ensures TwoHopInput(currencyIn, mid, currencyOut, amount, min) ==
            EncodePlan(TWO_HOP_CODES, [EncodeExactIn(TwoHop(currencyIn, mid, currencyOut, amount, min)).value,
                                       TwoWords(currencyIn, amount).value, TwoWords(currencyOut, 0).value])
  {
    hide EncodeExactIn, TwoWords, EncodePlan, TwoHop;
  }

  lemma ActionsAre(currencyIn: nat, currencyOut: nat, amount: nat, min: nat)
    ensures TwoHopActions(currencyIn, currencyOut, amount, min) ==
            [Swap4(currencyIn, currencyOut, amount, min), SettleAll(currencyIn, amount), TakeAll(currencyOut, 0)]
  {}

  lemma {:induction false} BatchCommand(input: bytes, codes: bytes, params: seq<bytes>, actions: seq<Action>)
    requires DecodePlan(input) == Ok((codes, params)) && |codes| == |params| && ReadActions(codes, params) == Ok(actions)
    ensures ReadCommand(0x10, input) == Ok(V4(actions))
  {
    hide DecodePlan, ReadActions;
  }

  lemma SwapActionRead(currencyIn: nat, mid: nat, currencyOut: nat, amount: nat, min: nat, p: bytes)
    requires ValidExactInput(TwoHop(currencyIn, mid, currencyOut, amount, min))
    requires EncodeExactIn(TwoHop(currencyIn, mid, currencyOut, amount, min)) == Ok(p)
    ensures ReadAction(7, p) == Ok(Swap4(currencyIn, currencyOut, amount, min))
  {
    hide EncodeExactIn, DecodeExactIn, ValidExactInput;
    ExactInCanonical(p, TwoHop(currencyIn, mid, currencyOut, amount, min));
  }

  lemma EndActionsRead(a: nat, most: nat, s: bytes, b: nat, least: nat, t: bytes)
    requires |s| == |t| == 64
    requires ReadUInt(s, 0, UINT160) == Ok(a) && ReadNat(s, 32) == Ok(most)
    requires ReadUInt(t, 0, UINT160) == Ok(b) && ReadNat(t, 32) == Ok(least)
    ensures ReadAction(0x0C, s) == Ok(SettleAll(a, most)) && ReadAction(0x0F, t) == Ok(TakeAll(b, least))
  {
    hide ReadUInt, ReadNat;
  }

  lemma ThreeLengths(a: bytes, b: bytes, c: bytes)
    ensures Lengths([a, b, c]) == |a| + |b| + |c|
  {
    assert [a, b, c][1..] == [b, c] && [b, c][1..] == [c];
    assert Lengths([c]) == |c| && Lengths([b, c]) == |b| + |c|;
  }

  lemma {:induction false} ThreeActions(codes: bytes, params: seq<bytes>, a: Action, b: Action, c: Action)
    requires |codes| == |params| == 3 && ReadAction(codes[0], params[0]) == Ok(a)
    requires ReadAction(codes[1], params[1]) == Ok(b) && ReadAction(codes[2], params[2]) == Ok(c)
    ensures ReadActions(codes, params) == Ok([a, b, c])
  {
    hide ReadAction;
    assert codes[..2][..1] == codes[..1] && params[..2][..1] == params[..1];
    assert codes[..1][..0] == [] && ReadActions([], []) == Ok([]) && params[..1][..0] == [];
    assert ReadActions(codes[..1], params[..1]) == Ok([] + [a]) && [] + [a] == [a];
    assert ReadActions(codes[..2], params[..2]) == Ok([a] + [b]) && [a] + [b] == [a, b];
    assert ReadActions(codes, params) == Ok([a, b] + [c]) && [a, b] + [c] == [a, b, c];
  }

  lemma TwoHopChecked(i: Intent, currencyIn: nat, currencyOut: nat, min: nat)
    requires SameToken(currencyIn, i.sellToken) && SameToken(currencyOut, i.buyToken) && i.sellAmount > 0
    ensures CheckBatch(i, TwoHopActions(currencyIn, currencyOut, i.sellAmount, min)) == Ok((i.sellAmount, min))
  {
    hide SameToken;
    var actions := TwoHopActions(currencyIn, currencyOut, i.sellAmount, min);
    var swaps, ends := actions[..1], actions[1..];
    assert swaps[..0] == [] && SwapSums(i, []) == Ok((0, 0)) && swaps[0] == actions[0];
    assert SwapSums(i, swaps) == Ok((i.sellAmount, min));
    assert ends[..1][..0] == [] && Ends(i, i.sellAmount, min, []) == Ok(min);
    assert Ends(i, i.sellAmount, min, ends[..1]) == Ok(min);
    assert ends[1] == actions[2] && Ends(i, i.sellAmount, min, ends) == Ok(min);
  }

  lemma PlanExecutes(args: bytes, codes: bytes, inputs: seq<bytes>)
    requires DecodePlan(args) == Ok((codes, inputs))
    ensures DecodeExecute(false, args) == Ok((codes, inputs))
  {
    hide EncodePlan, DecodeArgs, PlanOf;
  }

  /** The encoded call of that batch is accepted with the swap's minimum, and means that batch. */
  lemma TwoHopAccepted(i: Intent, currencyIn: nat, mid: nat, currencyOut: nat, min: nat)
    requires TwoHopArgs(currencyIn, mid, currencyOut, i.sellAmount, min) && ValueFits(i) && min >= i.minBuy
    requires SameToken(currencyIn, i.sellToken) && SameToken(currencyOut, i.buyToken)
    ensures var args := TwoHopCall(currencyIn, mid, currencyOut, i.sellAmount, min);
            && args.Ok? && CheckExecute(i, false, args.value) == Ok(min)
            && exists input ::
                 && CallMeans(args.value, [0x10], [input])
                 && AllMean([0x10], [input], [V4(TwoHopActions(currencyIn, currencyOut, i.sellAmount, min))])
  {
    hide EncodePlan, DecodePlan, TwoHopInput, ReadCommand, CallMeans, Means, CheckBatch, SameToken, TwoHopActions, PlanOf, DecodeArgs;
    var input := TwoHopRead(currencyIn, mid, currencyOut, i.sellAmount, min);
    var codes: bytes, inputs: seq<bytes> := [0x10], [input];
    PlanFits(codes, inputs);
    var args := EncodePlan(codes, inputs).value;
    PlanRead(args, codes, inputs);
    PlanExecutes(args, codes, inputs);
    CallRead(false, args, codes, inputs);
    var c := V4(TwoHopActions(currencyIn, currencyOut, i.sellAmount, min));
    CommandMeaning(0x10, input, c, c);
    TwoHopChecked(i, currencyIn, currencyOut, min);
    assert codes[..0] == [] && inputs[..0] == [] && CheckCommands(i, [], []) == Ok(NOTHING);
    var t := if IsNative(i.sellToken) then NOTHING.(v4Native := i.sellAmount, delivered := min)
             else NOTHING.(userIn := i.sellAmount, delivered := min);
    assert CheckOne(i, 0x10, input) == Ok(t);
    assert CheckCommands(i, codes, inputs) == Ok(Add(NOTHING, t));
  }

  /** What the batch owes in its currency in, once the swap has paid its minimum. */
  function Owed(currencyIn: nat, currencyOut: nat, amount: nat, min: nat): int {
    if AssetOf(currencyIn) == AssetOf(currencyOut) then amount - min else amount
  }

  /** What is left to take in its currency out, once all debt is settled. */
  function Earned(currencyIn: nat, currencyOut: nat, min: nat): nat {
    if AssetOf(currencyIn) == AssetOf(currencyOut) then 0 else min
  }

  lemma TwoHopSwaps(currencyIn: nat, currencyOut: nat, amount: nat, min: nat, s: Batch, s': Batch)
    requires currencyIn != NATIVE_SENTINEL && currencyOut != NATIVE_SENTINEL && s'.world == s.world && NoDeltas(s.deltas)
    requires Unmoved(Put(Put(s.deltas, AssetOf(currencyIn), -(amount as int)), AssetOf(currencyOut), min), s'.deltas)
    ensures Swapped(s, s', Swap4(currencyIn, currencyOut, amount, min))
  {
    var x: nat, y: nat, m: Deltas := amount, min, Put(s.deltas, AssetOf(currencyIn), -(amount as int));
    assert Movable(currencyIn, x) && Movable(currencyOut, y);
    assert Moved(s.deltas, m, AssetOf(currencyIn), -(x as int)) && Moved(m, s'.deltas, AssetOf(currencyOut), y);
  }

  lemma SettlesAll(wallet: nat, currency: nat, most: nat, x: nat, s: Batch, s': Batch)
    requires x == -s.deltas(AssetOf(currency)) && x <= most && (currency == 0 ==> x <= s.world.router(Native))
    requires var a := AssetOf(currency);
             && Unmoved(Put(s.deltas, a, x), s'.deltas)
             && Unmoved(if a.Token? then Put(s.world.wallet, a, -(x as int)) else s.world.wallet, s'.world.wallet)
             && Unmoved(if a.Token? then s.world.router else Put(s.world.router, a, -(x as int)), s'.world.router)
    ensures Acted(wallet, SettleAll(currency, most), s, s')
  {
    assert Settled(s, s', currency, x, true);
  }

  lemma TakesAll(wallet: nat, currency: nat, y: nat, s: Batch, s': Batch)
    requires y == s.deltas(AssetOf(currency)) && Unmoved(Put(s.deltas, AssetOf(currency), -(y as int)), s'.deltas)
    requires Unmoved(Put(s.world.wallet, AssetOf(currency), y), s'.world.wallet) && Unmoved(s.world.router, s'.world.router)
    ensures Acted(wallet, TakeAll(currency, 0), s, s')
  {
    assert Taken(s, s', currency, y, Wallet);
  }

  /** The batch runs: the swap pays its minimum, what is owed is settled, and what is earned is taken. */
  lemma TwoHopRuns(ch: Chain, currencyIn: nat, currencyOut: nat, amount: nat, min: nat, w: World) returns (w': World)
    requires currencyIn != NATIVE_SENTINEL && currencyOut != NATIVE_SENTINEL && Owed(currencyIn, currencyOut, amount, min) >= 0
    requires currencyIn == 0 ==> w.router(Native) >= amount
    ensures Steps(ch, V4(TwoHopActions(currencyIn, currencyOut, amount, min)), w, w')
    ensures var paid := if currencyIn == 0 then 0 else Owed(currencyIn, currencyOut, amount, min);
            Unmoved(Put(Put(w.wallet, AssetOf(currencyIn), -paid), AssetOf(currencyOut), Earned(currencyIn, currencyOut, min)),
                    w'.wallet)
  {
    var a, b, actions := AssetOf(currencyIn), AssetOf(currencyOut), TwoHopActions(currencyIn, currencyOut, amount, min);
    var x: nat, y: nat := Owed(currencyIn, currencyOut, amount, min), Earned(currencyIn, currencyOut, min);
    var zero: Deltas := _ => 0;
    var d1 := Put(Put(zero, a, -(amount as int)), b, min);
    var d2 := Put(d1, a, x);
    var d3 := Put(d2, b, -(y as int));
    var w2 := if a.Token? then World(Put(w.wallet, a, -(x as int)), w.router) else World(w.wallet, Put(w.router, a, -(x as int)));
    w' := World(Put(w2.wallet, b, y), w2.router);
    var ss := [Batch(w, zero), Batch(w, d1), Batch(w2, d2), Batch(w', d3)];
    TwoHopSwaps(currencyIn, currencyOut, amount, min, ss[0], ss[1]);
    assert Acted(ch.wallet, actions[0], ss[0], ss[1]);
    SettlesAll(ch.wallet, currencyIn, amount, x, ss[1], ss[2]);
    TakesAll(ch.wallet, currencyOut, y, ss[2], ss[3]);
    assert Acted(ch.wallet, actions[1], ss[1], ss[2]) && Acted(ch.wallet, actions[2], ss[2], ss[3]);
    hide Acted, TwoHopActions;
    assert NoDeltas(ss[3].deltas) && BatchRuns(ch.wallet, actions, ss);
  }

  /** A token batch that is accepted has a run, in which the wallet pays the whole sell amount and gets the minimum. */
  lemma TwoHopSettles(i: Intent, ch: Chain, mid: nat, min: nat, before: World) returns (ws: seq<World>)
    requires TwoHopArgs(i.sellToken, mid, i.buyToken, i.sellAmount, min) && ValueFits(i) && min >= i.minBuy
    requires !IsNative(i.sellToken) && !IsNative(i.buyToken) && i.sellToken != i.buyToken
    ensures Executes(ch, i.value, [V4(TwoHopActions(i.sellToken, i.buyToken, i.sellAmount, min))], before, ws)
    ensures Unmoved(Put(Put(before.wallet, Token(i.sellToken), -(i.sellAmount as int)), Token(i.buyToken), min), ws[1].wallet)
  {
    var none: nat := 0;
    var after := TwoHopRuns(ch, i.sellToken, i.buyToken, i.sellAmount, min, before);
    ws := [before, after];
    hide TwoHopActions;
    assert Credited(before, before, Wallet, Native, -(none as int)) && Credited(before, before, Router, Native, none);
    assert Exchanged(before, ws[0], Wallet, Native, none, Router, Native, none);
  }

  /** Why two native tokens must not meet a V4 batch: a round trip from the native currency back into it
      is accepted with its minimum, and it has a run in which the settle nets the whole credit away; the
      value stays with the router and the wallet gets nothing. */
  lemma NativeRoundTrip(i: Intent, ch: Chain, mid: nat, min: nat, before: World)
    returns (args: bytes, input: bytes, c: Command, ws: seq<World>)
    requires TwoHopArgs(0, mid, 0, i.sellAmount, min) && ValueFits(i) && i.minBuy <= min && 0 < min <= i.sellAmount
    requires IsNative(i.sellToken) && IsNative(i.buyToken) && before.router(Native) >= 0
    ensures CheckExecute(i, false, args) == Ok(min)
    ensures CallMeans(args, [0x10], [input]) && AllMean([0x10], [input], [c]) && Executes(ch, i.value, [c], before, ws)
    ensures !Safe(i, before.wallet, ws[1].wallet, i.sellAmount, min)
  {
    hide TwoHopCall, CheckExecute, CallMeans, AllMean, TwoHopActions, Steps;
    TwoHopAccepted(i, 0, mid, 0, min);
    args := TwoHopCall(0, mid, 0, i.sellAmount, min).value;
    c := V4(TwoHopActions(0, 0, i.sellAmount, min));
    input :| CallMeans(args, [0x10], [input]) && AllMean([0x10], [input], [c]);
    var middle := World(Put(before.wallet, Native, -(i.value as int)), before.router);
    var start := World(middle.wallet, Put(before.router, Native, i.value));
    assert Credited(before, middle, Wallet, Native, -(i.value as int)) && Credited(middle, start, Router, Native, i.value);
    assert Exchanged(before, start, Wallet, Native, i.value, Router, Native, i.value);
    var after := TwoHopRuns(ch, 0, 0, i.sellAmount, min, start);
    ws := [start, after];
    assert after.wallet(Native) == before.wallet(Native) - i.sellAmount;
  }
}
