/** What a router call means on chain, by the words a contract loads from its calldata: heads at their
    places, offsets followed once, no canonical form asked for. Every such reading is unique, and what
    the checker's decoder returns is that reading. */
module CallMeaning {
  import opened Wrappers
  import opened Radix
  import opened Bytes
  import opened Abi
  import opened AbiRoundTrip
  import opened V4Swap
  import opened UniversalRouter

  // ----- loads -----

  /** An address is the low 160 bits of its word. */
  predicate AddressAt(data: bytes, pos: nat, a: nat) {
    var w := ReadNat(data, pos);
    w.Ok? && a == w.value % UINT160
  }

  predicate FlagAt(data: bytes, pos: nat, b: bool) {
    var w := ReadNat(data, pos);
    w.Ok? && (b <==> w.value != 0)
  }

  /** A length word and the bytes behind it. */
  predicate BytesFrom(data: bytes, pos: nat, raw: bytes) {
    && ReadNat(data, pos) == Ok(|raw|)
    && pos + 32 + |raw| <= |data| && data[pos + 32..pos + 32 + |raw|] == raw
  }

  /** The byte string that the `k`th offset of an array points to. */
  predicate ItemAt(data: bytes, start: nat, k: nat, item: bytes) {
    var off := ReadNat(data, start + 32 * k);
    off.Ok? && BytesFrom(data, start + off.value, item)
  }

  predicate ItemsFrom(data: bytes, pos: nat, items: seq<bytes>) {
    && ReadNat(data, pos) == Ok(|items|)
    && forall k :: 0 <= k < |items| ==> ItemAt(data, pos + 32, k, items[k])
  }

  /** The command bytes and the inputs of a call of `execute`; a deadline behind them changes nothing. */
  predicate CallMeans(args: bytes, codes: bytes, inputs: seq<bytes>) {
    var a, b := ReadNat(args, 0), ReadNat(args, 32);
    a.Ok? && b.Ok? && BytesFrom(args, a.value, codes) && ItemsFrom(args, b.value, inputs)
  }

  // ----- commands -----

  /** First and last token of a v2 path: the first and the last word of an address array. */
  predicate V2Path(data: bytes, pos: nat, first: nat, last: nat) {
    var n := ReadNat(data, pos);
    n.Ok? && n.value >= 2 && AddressAt(data, pos + 32, first) && AddressAt(data, pos + 32 * n.value, last)
  }

  /** First and last token of a v3 path: the first and the last 20 bytes of a byte string. */
  predicate V3Path(data: bytes, pos: nat, first: nat, last: nat) {
    var n := ReadNat(data, pos);
    && n.Ok? && n.value >= 43 && pos + 32 + n.value <= |data|
    && first == BigEndian(data[pos + 32..pos + 52])
    && last == BigEndian(data[pos + 12 + n.value..pos + 32 + n.value])
  }

  predicate SwapMeans(v3: bool, input: bytes, c: Command) {
    && c.Swap?
    && AddressAt(input, 0, c.recipient) && ReadNat(input, 32) == Ok(c.amountIn) && ReadNat(input, 64) == Ok(c.minOut)
    && FlagAt(input, 128, c.byUser)
    && var off := ReadNat(input, 96);
       && off.Ok?
       && (if v3 then V3Path(input, off.value, c.tokenIn, c.tokenOut) else V2Path(input, off.value, c.tokenIn, c.tokenOut))
  }

  /** Parameters of a settle or a take: words. */
  predicate StaticMeans(code: byte, p: bytes, a: Action) {
    match code
    case 0x0B => a.Settle? && AddressAt(p, 0, a.currency) && ReadNat(p, 32) == Ok(a.amount) && FlagAt(p, 64, a.byUser)
    case 0x0C => a.SettleAll? && AddressAt(p, 0, a.currency) && ReadNat(p, 32) == Ok(a.most)
    case 0x0E => a.Take? && AddressAt(p, 0, a.currency) && AddressAt(p, 32, a.recipient) && ReadNat(p, 64) == Ok(a.amount)
    case 0x0F => a.TakeAll? && AddressAt(p, 0, a.currency) && ReadNat(p, 32) == Ok(a.least)
    case _ => false
  }

  /** A swap's parameters mean the struct they are the encoding of. */
  ghost predicate ActionMeans(code: byte, p: bytes, a: Action) {
    if code == 6 then exists x :: ValidSingle(x) && EncodeSingle(x) == Ok(p) && a == SingleSwap(x)
    else if code == 7 then exists x :: ValidExactInput(x) && EncodeExactIn(x) == Ok(p) && a == PathSwap(x)
    else StaticMeans(code, p, a)
  }

  ghost predicate ActionsMean(codes: bytes, params: seq<bytes>, actions: seq<Action>) {
    && |codes| == |params| == |actions|
    && forall k :: 0 <= k < |codes| ==> ActionMeans(codes[k], params[k], actions[k])
  }

  /** A V4 input means the plan it is the encoding of. */
  ghost predicate BatchMeans(input: bytes, actions: seq<Action>) {
    exists codes, params :: EncodePlan(codes, params) == Ok(input) && ActionsMean(codes, params, actions)
  }

  ghost predicate Means(code: byte, input: bytes, c: Command) {
    match code
    case 0x00 => SwapMeans(true, input, c)
    case 0x08 => SwapMeans(false, input, c)
    case 0x0B => c.Wrap? && AddressAt(input, 0, c.recipient) && ReadNat(input, 32) == Ok(c.amount)
    case 0x0C => c.Unwrap? && AddressAt(input, 0, c.recipient) && ReadNat(input, 32) == Ok(c.least)
    case 0x04 => c.Sweep? && AddressAt(input, 0, c.token) && AddressAt(input, 32, c.recipient) && ReadNat(input, 64) == Ok(c.least)
    case 0x10 => c.V4? && BatchMeans(input, c.actions)
    case _ => false
  }

  ghost predicate AllMean(codes: bytes, inputs: seq<bytes>, commands: seq<Command>) {
    && |codes| == |inputs| == |commands|
    && forall k :: 0 <= k < |codes| ==> Means(codes[k], inputs[k], commands[k])
  }

  // ----- heads of a decoded sequence -----

  /** A value with a one-word head at `pos`: the word itself, or what its offset points to. */
  predicate SlotRead(t: AbiType, data: bytes, pos: nat, base: nat, v: Val) {
    if IsDynamic(t) then
      var off := ReadNat(data, pos);
      off.Ok? && var r := DecodeAt(t, data, base + off.value); r.Ok? && r.value.0 == v
    else
      var w := ReadWord(data, pos);
      t.Base? && w.Ok? && DecodeWord(t.kind, w.value) == Ok(v)
  }

  predicate OneWordHeads(types: seq<AbiType>) {
    forall j :: 0 <= j < |types| ==> types[j].Base? || IsDynamic(types[j])
  }

  lemma {:induction false} HeadAt(types: seq<AbiType>, data: bytes, pos: nat, base: nat, vals: seq<Val>, k: nat)
    requires OneWordHeads(types) && DecodeSeq(types, data, pos, base) == Ok(vals) && k < |types|
    ensures |vals| == |types| && SlotRead(types[k], data, pos + 32 * k, base, vals[k])
    decreases |types|
  {
    SeqStep(types, data, pos, base, vals);
    if k > 0 {
      assert types[1..][k - 1] == types[k];
      HeadAt(types[1..], data, pos + 32, base, vals[1..], k - 1);
    } else if |types| > 1 {
      HeadAt(types[1..], data, pos + 32, base, vals[1..], 0);
    }
  }

  lemma SeqStep(types: seq<AbiType>, data: bytes, pos: nat, base: nat, vals: seq<Val>)
    requires OneWordHeads(types) && DecodeSeq(types, data, pos, base) == Ok(vals) && types != []
    ensures vals != [] && SlotRead(types[0], data, pos, base, vals[0])
    ensures OneWordHeads(types[1..]) && DecodeSeq(types[1..], data, pos + 32, base) == Ok(vals[1..])
    ensures |types| == 1 ==> |vals| == 1
  {
    hide IsDynamic;
    assert vals[1..] == DecodeSeq(types[1..], data, pos + 32, base).value;
    assert |types| == 1 ==> types[1..] == [];
  }

  // ----- words -----

  lemma {:induction false} ZerosValue(n: nat)
    ensures BigEndian(ZeroBytes(n)) == 0
  {
    if n > 0 {
      ZerosValue(n - 1);
      assert ZeroBytes(n)[..n - 1] == ZeroBytes(n - 1);
    }
  }

  lemma AddressRange()
    ensures Pow(256, 20) == UINT160
  {
    PowAdd(256, 2, 2);
    PowAdd(256, 4, 4);
    PowAdd(256, 8, 8);
    PowAdd(256, 16, 4);
    assert Pow(256, 2) == 256 * (256 * Pow(256, 0));
  }

  lemma AddressSlot(data: bytes, pos: nat, v: Val, n: nat)
    requires SlotRead(ADDRESS, data, pos, 0, v) && NatOf(v) == Ok(n)
    ensures AddressAt(data, pos, n)
  {
    var w := ReadWord(data, pos).value;
    assert w == ZeroBytes(12) + w[12..];
    ValueConcat(ZeroBytes(12), w[12..], 256);
    ZerosValue(12);
    BigEndianBound(w[12..]);
    AddressRange();
    hide Pow, Value;
  }

  lemma UIntSlot(data: bytes, pos: nat, v: Val, n: nat)
    requires SlotRead(UINT, data, pos, 0, v) && NatOf(v) == Ok(n)
    ensures ReadNat(data, pos) == Ok(n)
  {}

  lemma FlagSlot(data: bytes, pos: nat, v: Val)
    requires SlotRead(Base(Bool), data, pos, 0, v) && v.VBool?
    ensures FlagAt(data, pos, v.b)
  {}

  lemma {:induction false} WordsAt(data: bytes, pos: nat, n: nat, items: seq<Val>, k: nat)
    requires DecodeWords(Address, data, pos, n) == Ok(items) && k < n == |items|
    ensures SlotRead(ADDRESS, data, pos + 32 * k, 0, items[k])
    decreases n
  {
    hide DecodeWord;
    assert items[1..] == DecodeWords(Address, data, pos + 32, n - 1).value;
    if k > 0 {
      WordsAt(data, pos + 32, n - 1, items[1..], k - 1);
    }
  }

  lemma {:induction false} V2PathRead(data: bytes, pos: nat, v: Val, first: nat, last: nat)
    requires var r := DecodeAt(Array(None, ADDRESS), data, pos); r.Ok? && r.value.0 == v
    requires PathTokens(v) == Ok((first, last))
    ensures V2Path(data, pos, first, last)
  {
    var n := ReadNat(data, pos).value;
    assert DecodeWords(Address, data, pos + 32, n) == Ok(v.items);
    hide DecodeWords, DecodeAt, ArraySpan, DecodeWord, AddressAt, SlotRead, NatOf;
    WordsCount(data, pos + 32, n, v.items);
    WordsAt(data, pos + 32, n, v.items, 0);
    WordsAt(data, pos + 32, n, v.items, n - 1);
    AddressSlot(data, pos + 32, v.items[0], first);
    assert pos + 32 + 32 * (n - 1) == pos + 32 * n;
    AddressSlot(data, pos + 32 * n, v.items[n - 1], last);
  }

  lemma {:induction false} WordsCount(data: bytes, pos: nat, n: nat, items: seq<Val>)
    requires DecodeWords(Address, data, pos, n) == Ok(items)
    ensures |items| == n
    decreases n
  {
    hide DecodeWord;
    if n > 0 {
      WordsCount(data, pos + 32, n - 1, DecodeWords(Address, data, pos + 32, n - 1).value);
    }
  }

  lemma {:induction false} V3PathRead(data: bytes, pos: nat, v: Val, first: nat, last: nat)
    requires var r := DecodeAt(Base(DynBytes), data, pos); r.Ok? && r.value.0 == v
    requires PathTokens(v) == Ok((first, last))
    ensures V3Path(data, pos, first, last)
  {
    hide BigEndian;
    var n := ReadNat(data, pos).value;
    var raw := data[pos + 32..pos + 32 + n];
    assert v == VBytes(raw);
    assert raw[..20] == data[pos + 32..pos + 52] && raw[n - 20..] == data[pos + 12 + n..pos + 32 + n];
  }

  // ----- what the decoder returns is the meaning -----

  function SwapTypes(v3: bool): seq<AbiType> {
    [ADDRESS, UINT, UINT, if v3 then Base(DynBytes) else Array(None, ADDRESS), Base(Bool)]
  }

  /** A swap as it is read from its five decoded arguments. */
  lemma SwapOf(v3: bool, input: bytes, c: Command) returns (vals: seq<Val>)
    requires ReadSwap(SwapTypes(v3)[3], input) == Ok(c)
    ensures DecodeArgs(SwapTypes(v3), input) == Ok(vals) && |vals| == 5 && c.Swap?
    ensures NatOf(vals[0]) == Ok(c.recipient) && NatOf(vals[1]) == Ok(c.amountIn) && NatOf(vals[2]) == Ok(c.minOut)
    ensures PathTokens(vals[3]) == Ok((c.tokenIn, c.tokenOut)) && vals[4] == VBool(c.byUser)
  {
    hide DecodeArgs, NatOf, PathTokens;
    vals := DecodeArgs(SwapTypes(v3), input).value;
  }

  lemma SwapHeads(v3: bool)
    ensures |SwapTypes(v3)| == 5 && OneWordHeads(SwapTypes(v3)) && IsDynamic(SwapTypes(v3)[3])
    ensures SwapTypes(v3)[0] == ADDRESS && SwapTypes(v3)[1] == SwapTypes(v3)[2] == UINT && SwapTypes(v3)[4] == Base(Bool)
    ensures SwapTypes(v3)[3] == if v3 then Base(DynBytes) else Array(None, ADDRESS)
  {}

  lemma PathSlot(v3: bool, input: bytes, v: Val, first: nat, last: nat)
    requires IsDynamic(SwapTypes(v3)[3]) && SlotRead(SwapTypes(v3)[3], input, 96, 0, v) && PathTokens(v) == Ok((first, last))
    ensures ReadNat(input, 96).Ok?
    ensures var off := ReadNat(input, 96).value; if v3 then V3Path(input, off, first, last) else V2Path(input, off, first, last)
  {
    hide DecodeAt, PathTokens, V2Path, V3Path, IsDynamic, ReadNat;
    var off := ReadNat(input, 96).value;
    if v3 {
      V3PathRead(input, off, v, first, last);
    } else {
      V2PathRead(input, off, v, first, last);
    }
  }

  lemma SwapSlots(v3: bool, input: bytes, c: Command)
    requires ReadSwap(SwapTypes(v3)[3], input) == Ok(c)
    ensures SwapMeans(v3, input, c)
  {
    hide *;
    SwapHeads(v3);
    var types := SwapTypes(v3);
    var vals := SwapOf(v3, input, c);
    DecodeArgsIs(types, input);
    HeadAt(types, input, 0, 0, vals, 0);
    HeadAt(types, input, 0, 0, vals, 1);
    HeadAt(types, input, 0, 0, vals, 2);
    HeadAt(types, input, 0, 0, vals, 3);
    HeadAt(types, input, 0, 0, vals, 4);
    AddressSlot(input, 0, vals[0], c.recipient);
    UIntSlot(input, 32, vals[1], c.amountIn);
    UIntSlot(input, 64, vals[2], c.minOut);
    FlagSlot(input, 128, vals[4]);
    PathSlot(v3, input, vals[3], c.tokenIn, c.tokenOut);
    SwapFromWords(v3, input, c);
  }

  lemma SwapFromWords(v3: bool, input: bytes, c: Command)
    requires c.Swap? && AddressAt(input, 0, c.recipient)
    requires ReadNat(input, 32) == Ok(c.amountIn) && ReadNat(input, 64) == Ok(c.minOut) && FlagAt(input, 128, c.byUser)
    requires ReadNat(input, 96).Ok?
    requires var off := ReadNat(input, 96).value;
             if v3 then V3Path(input, off, c.tokenIn, c.tokenOut) else V2Path(input, off, c.tokenIn, c.tokenOut)
    ensures SwapMeans(v3, input, c)
  {
    hide ReadNat, AddressAt, FlagAt, V3Path, V2Path;
  }

  lemma WrapRead(code: byte, input: bytes, c: Command)
    requires (code == 0x0B || code == 0x0C) && ReadCommand(code, input) == Ok(c)
    ensures Means(code, input, c)
  {
    var types := [ADDRESS, UINT];
    var vals := DecodeArgs(types, input).value;
    hide DecodeSeq, NatOf, AddressAt, ReadNat, SlotRead;
    HeadAt(types, input, 0, 0, vals, 0);
    HeadAt(types, input, 0, 0, vals, 1);
    AddressSlot(input, 0, vals[0], c.recipient);
    UIntSlot(input, 32, vals[1], if c.Wrap? then c.amount else c.least);
  }

  lemma SweepRead(input: bytes, c: Command)
    requires ReadCommand(0x04, input) == Ok(c)
    ensures Means(0x04, input, c)
  {
    var types := [ADDRESS, ADDRESS, UINT];
    var vals := DecodeArgs(types, input).value;
    hide DecodeSeq, NatOf, AddressAt, ReadNat, SlotRead;
    HeadAt(types, input, 0, 0, vals, 0);
    HeadAt(types, input, 0, 0, vals, 1);
    HeadAt(types, input, 0, 0, vals, 2);
    AddressSlot(input, 0, vals[0], c.token);
    AddressSlot(input, 32, vals[1], c.recipient);
    UIntSlot(input, 64, vals[2], c.least);
  }

  lemma ActionRead(code: byte, p: bytes, a: Action)
    requires ReadAction(code, p) == Ok(a)
    ensures ActionMeans(code, p, a)
  {
    hide DecodeSingle, DecodeExactIn, EncodeSingle, EncodeExactIn, ValidSingle, ReadNat;
    if code == 6 {
      SingleCanonical(p, DecodeSingle(p).value);
    } else if code == 7 {
      ExactInCanonical(p, DecodeExactIn(p).value);
    }
  }

  lemma BatchRead(input: bytes, actions: seq<Action>)
    requires ReadBatch(input) == Ok(actions)
    ensures BatchMeans(input, actions)
  {
    hide DecodePlan, EncodePlan, ReadActions, ActionMeans;
    var plan := DecodePlan(input).value;
    PlanCanonical(input, plan.0, plan.1);
    forall k | 0 <= k < |plan.0|
      ensures ActionMeans(plan.0[k], plan.1[k], actions[k])
    {
      ReadActionsEach(plan.0, plan.1, actions, k);
      ActionRead(plan.0[k], plan.1[k], actions[k]);
    }
    assert ActionsMean(plan.0, plan.1, actions);
  }

  lemma CommandRead(code: byte, input: bytes, c: Command)
    requires ReadCommand(code, input) == Ok(c)
    ensures Means(code, input, c)
  {
    match code
    case 0x00 =>
      hide ReadSwap, SwapMeans;
      SwapSlots(true, input, c);
    case 0x08 =>
      hide ReadSwap, SwapMeans;
      SwapSlots(false, input, c);
    case 0x0B => WrapRead(code, input, c);
    case 0x0C => WrapRead(code, input, c);
    case 0x04 => SweepRead(input, c);
    case 0x10 =>
      hide ReadBatch, BatchMeans;
      BatchRead(input, c.actions);
    case _ => assert false;
  }

  // ----- a meaning is unique -----

  lemma ActionOnce(code: byte, p: bytes, a: Action, b: Action)
    requires ActionMeans(code, p, a) && ActionMeans(code, p, b)
    ensures a == b
  {
    hide EncodeSingle, EncodeExactIn, ValidSingle, DecodeSingle, DecodeExactIn, ReadNat, SingleSwap, PathSwap;
    if code == 6 {
      var x :| ValidSingle(x) && EncodeSingle(x) == Ok(p) && a == SingleSwap(x);
      var y :| ValidSingle(y) && EncodeSingle(y) == Ok(p) && b == SingleSwap(y);
      SingleCanonical(p, x);
      SingleCanonical(p, y);
    } else if code == 7 {
      var x :| ValidExactInput(x) && EncodeExactIn(x) == Ok(p) && a == PathSwap(x);
      var y :| ValidExactInput(y) && EncodeExactIn(y) == Ok(p) && b == PathSwap(y);
      ExactInCanonical(p, x);
      ExactInCanonical(p, y);
    }
  }

  lemma BatchOnce(input: bytes, xs: seq<Action>, ys: seq<Action>)
    requires BatchMeans(input, xs) && BatchMeans(input, ys)
    ensures xs == ys
  {
    hide EncodePlan, DecodePlan, ActionMeans;
    var codes, params :| EncodePlan(codes, params) == Ok(input) && ActionsMean(codes, params, xs);
    var codes', params' :| EncodePlan(codes', params') == Ok(input) && ActionsMean(codes', params', ys);
    PlanCanonical(input, codes, params);
    PlanCanonical(input, codes', params');
    forall k | 0 <= k < |xs|
      ensures xs[k] == ys[k]
    {
      ActionOnce(codes[k], params[k], xs[k], ys[k]);
    }
  }

  lemma SwapOnce(v3: bool, input: bytes, c: Command, d: Command)
    requires SwapMeans(v3, input, c) && SwapMeans(v3, input, d)
    ensures c == d
  {
    hide ReadNat, BigEndian;
  }

  lemma MeansOnce(code: byte, input: bytes, c: Command, d: Command)
    requires Means(code, input, c) && Means(code, input, d)
    ensures c == d
  {
    hide ReadNat, SwapMeans, BatchMeans;
    match code
    case 0x00 => SwapOnce(true, input, c, d);
    case 0x08 => SwapOnce(false, input, c, d);
    case 0x10 => BatchOnce(input, c.actions, d.actions);
    case _ =>
  }

  /** Whatever the checker reads from a command is what the command means, and all it can mean. */
  lemma CommandMeaning(code: byte, input: bytes, c: Command, d: Command)
    requires ReadCommand(code, input) == Ok(c)
    ensures Means(code, input, d) <==> c == d
  {
    hide ReadCommand, Means;
    CommandRead(code, input, c);
    if Means(code, input, d) {
      MeansOnce(code, input, c, d);
    }
  }

  // ----- the outer call -----

  lemma {:induction false} BytesSlot(data: bytes, pos: nat, v: Val)
    requires v.VBytes? && var r := DecodeAt(Base(DynBytes), data, pos); r.Ok? && r.value.0 == v
    ensures BytesFrom(data, pos, v.raw)
  {}

  lemma DynElemsNext(data: bytes, start: nat, i: nat, n: nat, items: seq<Val>)
    requires i < n && DecodeDynElems(Base(DynBytes), data, start, i, n) == Ok(items) && AllBytes(items)
    ensures items != [] && AllBytes(items[1..]) && ItemAt(data, start, i, items[0].raw)
    ensures DecodeDynElems(Base(DynBytes), data, start, i + 1, n) == Ok(items[1..])
  {
    var off := ReadNat(data, start + 32 * i).value;
    assert items[1..] == DecodeDynElems(Base(DynBytes), data, start, i + 1, n).value;
    BytesSlot(data, start + off, items[0]);
    hide DecodeAt, BytesFrom;
  }

  lemma {:induction false} NoElemsLeft(data: bytes, start: nat, n: nat, items: seq<Val>)
    requires DecodeDynElems(Base(DynBytes), data, start, n, n) == Ok(items)
    ensures items == []
  {}

  lemma {:induction false} DynElemsCount(data: bytes, start: nat, i: nat, n: nat, items: seq<Val>)
    requires i <= n && DecodeDynElems(Base(DynBytes), data, start, i, n) == Ok(items) && AllBytes(items)
    ensures |items| == n - i
    decreases n - i
  {
    hide DecodeDynElems, ItemAt;
    if i == n {
      NoElemsLeft(data, start, n, items);
    } else {
      DynElemsNext(data, start, i, n, items);
      DynElemsCount(data, start, i + 1, n, items[1..]);
    }
  }

  lemma {:induction false} DynElemsAt(data: bytes, start: nat, i: nat, n: nat, items: seq<Val>, k: nat)
    requires i <= k < n == i + |items| && DecodeDynElems(Base(DynBytes), data, start, i, n) == Ok(items) && AllBytes(items)
    ensures ItemAt(data, start, k, items[k - i].raw)
    decreases n - i
  {
    hide DecodeDynElems, ItemAt;
    DynElemsNext(data, start, i, n, items);
    if i < k {
      DynElemsAt(data, start, i + 1, n, items[1..], k);
    }
  }

  lemma {:induction false} ItemsSlot(data: bytes, pos: nat, v: Val)
    requires v.VList? && AllBytes(v.items)
    requires var r := DecodeAt(Array(None, Base(DynBytes)), data, pos); r.Ok? && r.value.0 == v
    ensures ItemsFrom(data, pos, RawItems(v.items))
  {
    var n := ReadNat(data, pos).value;
    assert DecodeDynElems(Base(DynBytes), data, pos + 32, 0, n) == Ok(v.items);
    hide DecodeDynElems, DecodeAt, ItemAt, ArraySpan;
    DynElemsCount(data, pos + 32, 0, n, v.items);
    forall k | 0 <= k < n
      ensures ItemAt(data, pos + 32, k, RawItems(v.items)[k])
    {
      DynElemsAt(data, pos + 32, 0, n, v.items, k);
    }
  }

  /** And they give the one that the checker decodes, with a deadline or without. */
  lemma CallRead(deadline: bool, args: bytes, codes: bytes, inputs: seq<bytes>)
    requires DecodeExecute(deadline, args) == Ok((codes, inputs))
    ensures CallMeans(args, codes, inputs)
  {
    var types := RouterTypes(deadline);
    var vals := DecodeArgs(types, args).value;
    assert types[0] == Base(DynBytes) && types[1] == Array(None, Base(DynBytes)) && OneWordHeads(types);
    hide DecodeSeq, DecodeAt, BytesFrom, ItemsFrom, RawItems;
    HeadAt(types, args, 0, 0, vals, 0);
    HeadAt(types, args, 0, 0, vals, 1);
    BytesSlot(args, ReadNat(args, 0).value, vals[0]);
    ItemsSlot(args, ReadNat(args, 32).value, vals[1]);
  }

  /** The words of a call give one list of commands and inputs. */
  lemma CallOnce(args: bytes, codes: bytes, inputs: seq<bytes>, codes': bytes, inputs': seq<bytes>)
    requires CallMeans(args, codes, inputs) && CallMeans(args, codes', inputs')
    ensures codes == codes' && inputs == inputs'
  {
    hide ReadNat;
  }
}
