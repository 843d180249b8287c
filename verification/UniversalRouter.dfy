/** The Universal Router checker: what a command list asks for, and the verdict on it. */
module UniversalRouter {
  import opened Wrappers
  import opened Bytes
  import opened Abi
  import opened AbiRoundTrip
  import opened V4Swap

  const NATIVE_SENTINEL := 0xeeeeeeeeeeeeeeeeeeeeeeeeeeeeeeeeeeeeeeee
  const MSG_SENDER := 1
  const ADDRESS_THIS := 2
  const CONTRACT_BALANCE := 0x80000000_00000000_00000000_00000000_00000000_00000000_00000000_00000000
  const OPEN_DELTA := 0

  /** What the user approved, with the value the transaction carries. Addresses are numbers. */
  datatype Intent = Intent(wallet: nat, sellToken: nat, sellAmount: nat, buyToken: nat, minBuy: nat, value: nat)

  predicate IsNative(a: nat) { a == NATIVE_SENTINEL || a == 0 }

  predicate SameToken(a: nat, b: nat) {
    if IsNative(a) || IsNative(b) then IsNative(a) && IsNative(b) else a == b
  }

  predicate ToWallet(i: Intent, recipient: nat) { recipient == MSG_SENDER || recipient == i.wallet }

  // ----- the bytes of a V4 batch -----

  /** `abi.encode(bytes actions, bytes[] params)` */
  function EncodePlan(codes: bytes, params: seq<bytes>): Result<bytes>
  {
    var a :- EncodeDynamicBytes(codes);
    var items :- EncodeEach(params);
    var p :- EncDynArray(items);
    HeadTail([Part(a, true), Part(p, true)])
  }

  function EncodeEach(params: seq<bytes>): (r: Result<seq<bytes>>)
    ensures r.Ok? ==> |r.value| == |params|
  {
    if params == [] then Ok([])
    else
      var first :- EncodeDynamicBytes(params[0]);
      var rest :- EncodeEach(params[1..]);
      Ok([first] + rest)
  }

  const PLAN: seq<AbiType> := [Base(DynBytes), Array(None, Base(DynBytes))]

  predicate AllBytes(items: seq<Val>) { forall k :: 0 <= k < |items| ==> items[k].VBytes? }

  function RawItems(items: seq<Val>): (raws: seq<bytes>)
    requires AllBytes(items)
    ensures |raws| == |items|
  {
    seq(|items|, k requires 0 <= k < |items| => items[k].raw)
  }

  function BytesItems(raws: seq<bytes>): (items: seq<Val>)
    ensures |items| == |raws| && AllBytes(items)
  {
    seq(|raws|, k requires 0 <= k < |raws| => VBytes(raws[k]))
  }

  /** The byte string and the list of byte strings at the front of decoded arguments. */
  function PlanOf(vals: seq<Val>): Result<(bytes, seq<bytes>)>
  {
    if |vals| >= 2 && vals[0].VBytes? && vals[1].VList? && AllBytes(vals[1].items)
    then Ok((vals[0].raw, RawItems(vals[1].items)))
    else Err
  }

  function DecodePlan(input: bytes): Result<(bytes, seq<bytes>)>
  {
    var vals :- DecodeArgs(PLAN, input);
    var plan :- PlanOf(vals);
    if EncodePlan(plan.0, plan.1) == Ok(input) then Ok(plan) else Err
  }

  // ----- V4 actions -----

  datatype Action =
    | Swap4(currencyIn: nat, currencyOut: nat, amountIn: nat, minOut: nat)
    | Settle(currency: nat, amount: nat, byUser: bool)
    | SettleAll(currency: nat, most: nat)
    | Take(currency: nat, recipient: nat, amount: nat)
    | TakeAll(currency: nat, least: nat)

  predicate IsSettle(a: Action) { a.Settle? || a.SettleAll? }

  predicate IsTake(a: Action) { a.Take? || a.TakeAll? }

  function SingleSwap(x: ExactInSingle): Action {
    if x.zeroForOne then Swap4(x.currency0, x.currency1, x.amountIn, x.minOut)
    else Swap4(x.currency1, x.currency0, x.amountIn, x.minOut)
  }

  function PathSwap(x: ExactInput): Action
    requires x.path != []
  {
    Swap4(x.currencyIn, x.path[|x.path| - 1].currency, x.amountIn, x.minOut)
  }

  function ReadStatic(code: byte, p: bytes): Result<Action>
  {
    if code == 0x0B && |p| == 96 then
      var cur :- ReadUInt(p, 0, UINT160);
      var amt :- ReadNat(p, 32);
      var user :- ReadBool(p, 64);
      Ok(Settle(cur, amt, user))
    else if code == 0x0C && |p| == 64 then
      var cur :- ReadUInt(p, 0, UINT160);
      var most :- ReadNat(p, 32);
      Ok(SettleAll(cur, most))
    else if code == 0x0E && |p| == 96 then
      var cur :- ReadUInt(p, 0, UINT160);
      var rcpt :- ReadUInt(p, 32, UINT160);
      var amt :- ReadNat(p, 64);
      Ok(Take(cur, rcpt, amt))
    else if code == 0x0F && |p| == 64 then
      var cur :- ReadUInt(p, 0, UINT160);
      var least :- ReadNat(p, 32);
      Ok(TakeAll(cur, least))
    else Err
  }

  function ReadAction(code: byte, p: bytes): Result<Action>
  {
    if code == 6 then
      var x :- DecodeSingle(p);
      Ok(SingleSwap(x))
    else if code == 7 then
      var x :- DecodeExactIn(p);
      if x.path == [] then Err else Ok(PathSwap(x))
    else ReadStatic(code, p)
  }

  function ReadActions(codes: bytes, params: seq<bytes>): (r: Result<seq<Action>>)
    requires |codes| == |params|
    ensures r.Ok? ==> |r.value| == |codes|
    decreases |codes|
  {
    if codes == [] then Ok([])
    else
      var n := |codes| - 1;
      var before :- ReadActions(codes[..n], params[..n]);
      var last :- ReadAction(codes[n], params[n]);
      Ok(before + [last])
  }

  // ----- the verdict on a V4 batch -----

  predicate SwapApproved(i: Intent, a: Action) {
    && a.Swap4?
    && SameToken(a.currencyIn, i.sellToken) && SameToken(a.currencyOut, i.buyToken)
    && a.amountIn != OPEN_DELTA
  }

  /** Sums of the inputs and of the minimum outputs, when every action is an approved swap. */
  function SwapSums(i: Intent, swaps: seq<Action>): Result<(nat, nat)>
    decreases |swaps|
  {
    if swaps == [] then Ok((0, 0))
    else
      var n := |swaps| - 1;
      var (total, least) :- SwapSums(i, swaps[..n]);
      if SwapApproved(i, swaps[n]) then Ok((total + swaps[n].amountIn, least + swaps[n].minOut)) else Err
  }

  /** The guaranteed output after a settle or a take is approved. */
  function EndApproved(i: Intent, total: nat, least: nat, a: Action): Result<nat>
  {
    match a
    case Settle(cur, amt, user) =>
      if (amt == OPEN_DELTA || amt == total) && (IsNative(i.sellToken) || user) && SameToken(cur, i.sellToken)
      then Ok(least) else Err
    case SettleAll(cur, _) => if SameToken(cur, i.sellToken) then Ok(least) else Err
    case Take(cur, rcpt, amt) =>
      if ToWallet(i, rcpt) && amt == OPEN_DELTA && SameToken(cur, i.buyToken) then Ok(least) else Err
    case TakeAll(cur, min) => if SameToken(cur, i.buyToken) then Ok(Max(least, min)) else Err
    case _ => Err
  }

  /** The guaranteed output after all the closing actions. */
  function Ends(i: Intent, total: nat, least: nat, ends: seq<Action>): Result<nat>
    decreases |ends|
  {
    if ends == [] then Ok(least)
    else
      var n := |ends| - 1;
      var m :- Ends(i, total, least, ends[..n]);
      EndApproved(i, total, m, ends[n])
  }

  predicate SettleAndTake(a: Action, b: Action) {
    (IsSettle(a) && IsTake(b)) || (IsTake(a) && IsSettle(b))
  }

  /** The input and the guaranteed output of swaps followed by one settle and one take. */
  function CheckBatch(i: Intent, actions: seq<Action>): Result<(nat, nat)>
  {
    if |actions| < 3 then Err
    else
      var n := |actions| - 2;
      var (total, least) :- SwapSums(i, actions[..n]);
      if !SettleAndTake(actions[n], actions[n + 1]) then Err
      else
        var out :- Ends(i, total, least, actions[n..]);
        Ok((total, out))
  }

  function ReadBatch(input: bytes): Result<seq<Action>>
  {
    var plan :- DecodePlan(input);
    if |plan.0| != |plan.1| then Err else ReadActions(plan.0, plan.1)
  }

  // ----- commands -----

  datatype Command =
    | Wrap(recipient: nat, amount: nat)
    | Swap(recipient: nat, amountIn: nat, minOut: nat, tokenIn: nat, tokenOut: nat, byUser: bool)
    | V4(actions: seq<Action>)
    | Sweep(token: nat, recipient: nat, least: nat)
    | Unwrap(recipient: nat, least: nat)

  const ADDRESS := Base(Address)
  const UINT := Base(UInt(256))

  /** Every field that is an address or a number; the types decoded here leave no other case. */
  function NatOf(v: Val): Result<nat>
  {
    match v
    case VBytes(raw) => Ok(BigEndian(raw))
    case VInt(n) => if n >= 0 then Ok(n) else Err
    case _ => Err
  }

  function NatAt(vals: seq<Val>, k: nat): Result<nat>
  {
    if k < |vals| then NatOf(vals[k]) else Err
  }

  /** First and last token of a v3 path: 20-byte tokens with 3-byte fees between them. */
  function V3PathTokens(path: bytes): Result<(nat, nat)>
  {
    if |path| < 43 || (|path| - 20) % 23 != 0 then Err
    else Ok((BigEndian(path[..20]), BigEndian(path[|path| - 20..])))
  }

  function V2PathTokens(path: seq<Val>): Result<(nat, nat)>
  {
    if |path| < 2 then Err
    else
      var first :- NatOf(path[0]);
      var last :- NatOf(path[|path| - 1]);
      Ok((first, last))
  }

  function PathTokens(v: Val): Result<(nat, nat)>
  {
    match v
    case VBytes(raw) => V3PathTokens(raw)
    case VList(items) => V2PathTokens(items)
    case _ => Err
  }

  function ReadSwap(pathType: AbiType, input: bytes): Result<Command>
  {
    var vals :- DecodeArgs([ADDRESS, UINT, UINT, pathType, Base(Bool)], input);
    var rcpt :- NatAt(vals, 0);
    var a :- NatAt(vals, 1);
    var m :- NatAt(vals, 2);
    if |vals| != 5 || !vals[4].VBool? then Err
    else
      var tokens :- PathTokens(vals[3]);
      Ok(Swap(rcpt, a, m, tokens.0, tokens.1, vals[4].b))
  }

  /** A command byte with its input. The allow-revert flag and every other command are refused. */
  function ReadCommand(code: byte, input: bytes): Result<Command>
  {
    match code
    case 0x00 => ReadSwap(Base(DynBytes), input)
    case 0x08 => ReadSwap(Array(None, ADDRESS), input)
    case 0x0B =>
      var vals :- DecodeArgs([ADDRESS, UINT], input);
      var rcpt :- NatAt(vals, 0);
      var a :- NatAt(vals, 1);
      Ok(Wrap(rcpt, a))
    case 0x0C =>
      var vals :- DecodeArgs([ADDRESS, UINT], input);
      var rcpt :- NatAt(vals, 0);
      var a :- NatAt(vals, 1);
      Ok(Unwrap(rcpt, a))
    case 0x04 =>
      var vals :- DecodeArgs([ADDRESS, ADDRESS, UINT], input);
      var tok :- NatAt(vals, 0);
      var rcpt :- NatAt(vals, 1);
      var a :- NatAt(vals, 2);
      Ok(Sweep(tok, rcpt, a))
    case 0x10 =>
      var actions :- ReadBatch(input);
      Ok(V4(actions))
    case _ => Err
  }

  // ----- the verdict -----

  /** Pulled from the wallet, wrapped from the value, settled from the value, and guaranteed out. */
  datatype Tally = Tally(userIn: nat, wrapped: nat, v4Native: nat, delivered: nat)

  const NOTHING := Tally(0, 0, 0, 0)

  function Add(a: Tally, b: Tally): Tally {
    Tally(a.userIn + b.userIn, a.wrapped + b.wrapped, a.v4Native + b.v4Native, a.delivered + b.delivered)
  }

  function SwapPull(i: Intent, c: Command): Result<nat>
    requires c.Swap?
  {
    if !c.byUser then Ok(0)
    else if IsNative(i.sellToken) || c.tokenIn != i.sellToken || c.amountIn == CONTRACT_BALANCE then Err
    else Ok(c.amountIn)
  }

  function SwapPays(i: Intent, c: Command): Result<nat>
    requires c.Swap?
  {
    if ToWallet(i, c.recipient) then
      if IsNative(i.buyToken) || c.tokenOut != i.buyToken then Err else Ok(c.minOut)
    else if c.recipient != ADDRESS_THIS then Err
    else Ok(0)
  }

  function Contribution(i: Intent, c: Command): Result<Tally>
  {
    match c
    case Wrap(rcpt, amount) =>
      if IsNative(i.sellToken) && rcpt == ADDRESS_THIS then Ok(NOTHING.(wrapped := amount)) else Err
    case Swap(_, _, _, _, _, _) =>
      var pull :- SwapPull(i, c);
      var pays :- SwapPays(i, c);
      Ok(NOTHING.(userIn := pull, delivered := pays))
    case V4(actions) =>
      var (total, least) :- CheckBatch(i, actions);
      Ok(if IsNative(i.sellToken) then NOTHING.(v4Native := total, delivered := least)
         else NOTHING.(userIn := total, delivered := least))
    case Sweep(tok, rcpt, least) =>
      if ToWallet(i, rcpt) && !IsNative(i.buyToken) && tok == i.buyToken then Ok(NOTHING.(delivered := least)) else Err
    case Unwrap(rcpt, least) =>
      if ToWallet(i, rcpt) && IsNative(i.buyToken) then Ok(NOTHING.(delivered := least)) else Err
  }

  function CheckOne(i: Intent, code: byte, input: bytes): Result<Tally>
  {
    var c :- ReadCommand(code, input);
    Contribution(i, c)
  }

  function CheckCommands(i: Intent, codes: bytes, inputs: seq<bytes>): Result<Tally>
    requires |codes| == |inputs|
    decreases |codes|
  {
    if codes == [] then Ok(NOTHING)
    else
      var n := |codes| - 1;
      var before :- CheckCommands(i, codes[..n], inputs[..n]);
      var last :- CheckOne(i, codes[n], inputs[n]);
      Ok(Add(before, last))
  }

  predicate Balanced(i: Intent, t: Tally) {
    && (if IsNative(i.sellToken) then t.wrapped + t.v4Native == i.sellAmount == i.value else t.userIn == i.sellAmount)
    && t.delivered >= i.minBuy
  }

  function RouterTypes(deadline: bool): seq<AbiType> { if deadline then PLAN + [UINT] else PLAN }

  function DecodeExecute(deadline: bool, args: bytes): Result<(bytes, seq<bytes>)>
  {
    var vals :- DecodeArgs(RouterTypes(deadline), args);
    PlanOf(vals)
  }

  /** The checker's verdict on a call of `execute`: the guaranteed output, or a refusal. */
  function CheckExecute(i: Intent, deadline: bool, args: bytes): Result<nat>
  {
    var call :- DecodeExecute(deadline, args);
    if |call.0| != |call.1| || call.0 == [] then Err
    else
      var t :- CheckCommands(i, call.0, call.1);
      if Balanced(i, t) then Ok(t.delivered) else Err
  }

  /** The value that must go with the call: the whole sell of a native sell, nothing otherwise. */
  predicate ValueFits(i: Intent) { i.value == if IsNative(i.sellToken) then i.sellAmount else 0 }

  // ----- the loops of the source -----

  function CheckV4(i: Intent, input: bytes): Result<(nat, nat)>
  {
    var actions :- ReadBatch(input);
    CheckBatch(i, actions)
  }

  lemma {:induction false} ReadActionsEach(codes: bytes, params: seq<bytes>, actions: seq<Action>, k: nat)
    requires |codes| == |params| && k < |codes| && ReadActions(codes, params) == Ok(actions)
    ensures ReadAction(codes[k], params[k]) == Ok(actions[k])
    ensures ReadActions(codes[..k], params[..k]) == Ok(actions[..k])
    decreases |codes|
  {
    hide ReadAction;
    var n := |codes| - 1;
    var before := ReadActions(codes[..n], params[..n]).value;
    assert actions == before + [actions[n]] && actions[..n] == before;
    if k < n {
      ReadActionsEach(codes[..n], params[..n], before, k);
      assert codes[..n][..k] == codes[..k] && params[..n][..k] == params[..k] && before[..k] == actions[..k];
    }
  }

  lemma ActionKind(code: byte, p: bytes, a: Action)
    requires ReadAction(code, p) == Ok(a)
    ensures a.Swap4? <==> code == 6 || code == 7
    ensures IsSettle(a) <==> code == 0x0B || code == 0x0C
    ensures IsTake(a) <==> code == 0x0E || code == 0x0F
  {
    hide DecodeSingle, DecodeExactIn, ReadUInt, ReadNat, ReadBool;
  }

  lemma {:induction false} SwapSumsEach(i: Intent, swaps: seq<Action>, k: nat)
    requires k < |swaps| && SwapSums(i, swaps).Ok?
    ensures SwapApproved(i, swaps[k])
    decreases |swaps|
  {
    var n := |swaps| - 1;
    if k < n {
      assert swaps[..n][k] == swaps[k];
      SwapSumsEach(i, swaps[..n], k);
    }
  }

  /** Where an approved batch has its swaps and its ends. */
  lemma {:induction false} ApprovedShape(i: Intent, codes: bytes, params: seq<bytes>, k: nat)
    requires |codes| == |params| && k < |codes|
    requires var r := ReadActions(codes, params); r.Ok? && CheckBatch(i, r.value).Ok?
    ensures var a := ReadAction(codes[k], params[k]);
            a.Ok? && (if k < |codes| - 2 then SwapApproved(i, a.value) else IsSettle(a.value) || IsTake(a.value))
    ensures SettleAndTakeCodes(codes[|codes| - 2], codes[|codes| - 1])
  {
    hide ReadAction, ReadActions, SwapApproved;
    var actions := ReadActions(codes, params).value;
    var n := |codes| - 2;
    ReadActionsEach(codes, params, actions, k);
    ReadActionsEach(codes, params, actions, n);
    ReadActionsEach(codes, params, actions, n + 1);
    ActionKind(codes[n], params[n], actions[n]);
    ActionKind(codes[n + 1], params[n + 1], actions[n + 1]);
    if k < n {
      assert actions[..n][k] == actions[k];
      SwapSumsEach(i, actions[..n], k);
    }
  }

  predicate SettleAndTakeCodes(a: byte, b: byte) {
    var lo, hi := if a <= b then a else b, if a <= b then b else a;
    (lo == 0x0B || lo == 0x0C) && (hi == 0x0E || hi == 0x0F)
  }

  lemma {:induction false} NextSwap(i: Intent, codes: bytes, params: seq<bytes>, k: nat, actions: seq<Action>,
                                    a: Action, total: nat, least: nat)
    requires |codes| == |params| && k < |codes|
    requires ReadActions(codes[..k], params[..k]) == Ok(actions) && SwapSums(i, actions) == Ok((total, least))
    requires ReadAction(codes[k], params[k]) == Ok(a)
    ensures ReadActions(codes[..k + 1], params[..k + 1]) == Ok(actions + [a])
    ensures SwapApproved(i, a) ==> SwapSums(i, actions + [a]) == Ok((total + a.amountIn, least + a.minOut))
  {
    hide ReadAction, SwapApproved;
    assert codes[..k + 1][..k] == codes[..k] && params[..k + 1][..k] == params[..k];
    assert (actions + [a])[..k] == actions;
  }

  /** The batch checker: counts the leading swaps, sums them, then checks the settle and the take. */
  method DecodeV4Swap(i: Intent, input: bytes) returns (r: Result<(nat, nat)>)
    ensures r == CheckV4(i, input)
  {
    hide *;
    V4Of(i, input);
    var plan := DecodePlan(input);
    if plan.Err? {
      return Err;
    }
    var codes, params := plan.value.0, plan.value.1;
    if |codes| != |params| || |codes| < 3 {
      return Err;
    }
    ghost var all := ReadActions(codes, params);
    ghost var accepted := all.Ok? && CheckBatch(i, all.value).Ok?;
    var n := 0;
    while n < |codes| && (codes[n] == 6 || codes[n] == 7)
      invariant n <= |codes|
      invariant forall k :: 0 <= k < n ==> codes[k] == 6 || codes[k] == 7
    {
      n := n + 1;
    }
    if n == 0 || |codes| - n != 2 || !SettleAndTakeCodes(codes[n], codes[n + 1]) {
      if accepted {
        WrongShape(i, codes, params, n);
      }
      return Err;
    }
    var total: nat, least: nat := 0, 0;
    ghost var actions: seq<Action> := [];
    NoSwaps(i, codes, params);
    for k := 0 to n
      invariant ReadActions(codes[..k], params[..k]) == Ok(actions)
      invariant SwapSums(i, actions) == Ok((total, least))
    {
      if accepted {
        ApprovedShape(i, codes, params, k);
      }
      var a := ReadAction(codes[k], params[k]);
      if a.Err? || !SwapApproved(i, a.value) {
        return Err;
      }
      NextSwap(i, codes, params, k, actions, a.value, total, least);
      SwapFields(i, a.value);
      total, least, actions := total + a.value.amountIn, least + a.value.minOut, actions + [a.value];
    }
    ghost var swaps, floor := actions, least;
    NoEnds(i, total, floor, actions, n);
    for k := n to n + 2
      invariant |actions| == k && swaps == actions[..n]
      invariant ReadActions(codes[..k], params[..k]) == Ok(actions)
      invariant Ends(i, total, floor, actions[n..]) == Ok(least)
    {
      if accepted {
        ApprovedEnd(i, codes, params, k, actions, total, floor, least);
      }
      var a := ReadAction(codes[k], params[k]);
      if a.Err? {
        return Err;
      }
      var e := EndApproved(i, total, least, a.value);
      if e.Err? {
        return Err;
      }
      NextEnd(i, codes, params, k, n, actions, a.value, total, floor, least);
      least, actions := e.value, actions + [a.value];
    }
    assert codes[..n + 2] == codes && params[..n + 2] == params;
    BatchAccepted(i, codes, params, actions, total, floor, least);
    return Ok((total, least));
  }

  lemma V4Of(i: Intent, input: bytes)
    ensures var plan := DecodePlan(input);
            CheckV4(i, input) ==
            if plan.Err? || |plan.value.0| != |plan.value.1| || |plan.value.0| < 3 then Err
            else
              (var r := ReadActions(plan.value.0, plan.value.1);
               if r.Err? then Err else CheckBatch(i, r.value))
  {
    hide DecodePlan, ReadActions;
  }

  lemma {:induction false} NoEnds(i: Intent, total: nat, floor: nat, actions: seq<Action>, n: nat)
    requires n == |actions|
    ensures Ends(i, total, floor, actions[n..]) == Ok(floor) && actions == actions[..n]
  {}

  lemma {:induction false} NoSwaps(i: Intent, codes: bytes, params: seq<bytes>)
    requires |codes| == |params|
    ensures ReadActions(codes[..0], params[..0]) == Ok([]) && SwapSums(i, []) == Ok((0, 0))
  {}

  lemma SwapFields(i: Intent, a: Action)
    requires SwapApproved(i, a)
    ensures a.Swap4?
  {}

  lemma {:induction false} WrongShape(i: Intent, codes: bytes, params: seq<bytes>, n: nat)
    requires |codes| == |params| >= 3 && n <= |codes|
    requires forall k :: 0 <= k < n ==> codes[k] == 6 || codes[k] == 7
    requires n < |codes| ==> codes[n] != 6 && codes[n] != 7
    requires var r := ReadActions(codes, params); r.Ok? && CheckBatch(i, r.value).Ok?
    ensures |codes| - n == 2 && SettleAndTakeCodes(codes[n], codes[n + 1])
  {
    hide ReadAction, ReadActions, CheckBatch;
    var last := |codes| - 2;
    ApprovedShape(i, codes, params, last);
    if n < last {
      ApprovedShape(i, codes, params, n);
      ActionKind(codes[n], params[n], ReadAction(codes[n], params[n]).value);
    }
  }

  lemma {:induction false} ApprovedEnd(i: Intent, codes: bytes, params: seq<bytes>, k: nat, actions: seq<Action>,
                                       total: nat, floor: nat, least: nat)
    requires |codes| == |params| && |codes| - 2 <= k < |codes|
    requires var r := ReadActions(codes, params); r.Ok? && CheckBatch(i, r.value).Ok?
    requires ReadActions(codes[..k], params[..k]) == Ok(actions) && |actions| == k
    requires SwapSums(i, actions[..|codes| - 2]) == Ok((total, floor))
    requires Ends(i, total, floor, actions[|codes| - 2..]) == Ok(least)
    ensures var a := ReadAction(codes[k], params[k]);
            a.Ok? && EndApproved(i, total, least, a.value).Ok?
  {
    hide ReadAction, ReadActions, SwapSums, Ends, EndApproved;
    var n := |codes| - 2;
    var all := ReadActions(codes, params).value;
    ReadActionsEach(codes, params, all, k);
    assert all[..n] == all[..k][..n];
    EndsEach(i, total, floor, all[n..], k - n);
    assert all[n..][..k - n] == all[..k][n..];
  }

  lemma {:induction false} EndsEach(i: Intent, total: nat, floor: nat, ends: seq<Action>, k: nat)
    requires k < |ends| && Ends(i, total, floor, ends).Ok?
    ensures Ends(i, total, floor, ends[..k]).Ok?
    ensures EndApproved(i, total, Ends(i, total, floor, ends[..k]).value, ends[k]).Ok?
    decreases |ends|
  {
    hide EndApproved;
    var n := |ends| - 1;
    if k < n {
      EndsEach(i, total, floor, ends[..n], k);
      assert ends[..n][..k] == ends[..k];
    }
  }

  lemma {:induction false} NextEnd(i: Intent, codes: bytes, params: seq<bytes>, k: nat, n: nat, actions: seq<Action>, a: Action,
                total: nat, floor: nat, least: nat)
    requires |codes| == |params| && n <= k < |codes|
    requires ReadActions(codes[..k], params[..k]) == Ok(actions) && |actions| == k
    requires Ends(i, total, floor, actions[n..]) == Ok(least) && ReadAction(codes[k], params[k]) == Ok(a)
    ensures ReadActions(codes[..k + 1], params[..k + 1]) == Ok(actions + [a])
    ensures Ends(i, total, floor, (actions + [a])[n..]) == EndApproved(i, total, least, a)
  {
    hide ReadAction, EndApproved;
    assert codes[..k + 1][..k] == codes[..k] && params[..k + 1][..k] == params[..k];
    var ends := (actions + [a])[n..];
    assert ends[..k - n] == actions[n..];
  }

  lemma {:induction false} BatchAccepted(i: Intent, codes: bytes, params: seq<bytes>, actions: seq<Action>,
                                         total: nat, floor: nat, least: nat)
    requires |codes| == |params| >= 3 && ReadActions(codes, params) == Ok(actions)
    requires SettleAndTakeCodes(codes[|codes| - 2], codes[|codes| - 1])
    requires SwapSums(i, actions[..|codes| - 2]) == Ok((total, floor))
    requires Ends(i, total, floor, actions[|codes| - 2..]) == Ok(least)
    ensures CheckBatch(i, actions) == Ok((total, least))
  {
    hide ReadAction, ReadActions, SwapSums, Ends;
    var n := |codes| - 2;
    ReadActionsEach(codes, params, actions, n);
    ReadActionsEach(codes, params, actions, n + 1);
    ActionKind(codes[n], params[n], actions[n]);
    ActionKind(codes[n + 1], params[n + 1], actions[n + 1]);
  }

  lemma {:induction false} CheckedEach(i: Intent, codes: bytes, inputs: seq<bytes>, k: nat)
    requires |codes| == |inputs| && k < |codes| && CheckCommands(i, codes, inputs).Ok?
    ensures CheckOne(i, codes[k], inputs[k]).Ok? && CheckCommands(i, codes[..k], inputs[..k]).Ok?
    ensures CheckCommands(i, codes[..k + 1], inputs[..k + 1]) ==
            Ok(Add(CheckCommands(i, codes[..k], inputs[..k]).value, CheckOne(i, codes[k], inputs[k]).value))
    decreases |codes|
  {
    hide CheckOne;
    var n := |codes| - 1;
    if k < n {
      CheckedEach(i, codes[..n], inputs[..n], k);
      assert codes[..n][..k] == codes[..k] && inputs[..n][..k] == inputs[..k];
      assert codes[..n][..k + 1] == codes[..k + 1] && inputs[..n][..k + 1] == inputs[..k + 1];
    } else {
      assert codes[..n + 1] == codes && inputs[..n + 1] == inputs;
    }
  }

  lemma {:induction false} CheckedNext(i: Intent, codes: bytes, inputs: seq<bytes>, k: nat)
    requires |codes| == |inputs| && k < |codes| && CheckCommands(i, codes[..k], inputs[..k]).Ok?
    requires CheckOne(i, codes[k], inputs[k]).Ok?
    ensures CheckCommands(i, codes[..k + 1], inputs[..k + 1]) ==
            Ok(Add(CheckCommands(i, codes[..k], inputs[..k]).value, CheckOne(i, codes[k], inputs[k]).value))
  {
    hide CheckOne;
    assert codes[..k + 1][..k] == codes[..k] && inputs[..k + 1][..k] == inputs[..k];
  }

  lemma OneOf(i: Intent, code: byte, input: bytes)
    ensures CheckOne(i, code, input) ==
            if code == 0x10 then
              (var v := CheckV4(i, input);
               if v.Err? then Err
               else if IsNative(i.sellToken) then Ok(NOTHING.(v4Native := v.value.0, delivered := v.value.1))
               else Ok(NOTHING.(userIn := v.value.0, delivered := v.value.1)))
            else
              (var c := ReadCommand(code, input); if c.Err? then Err else Contribution(i, c.value))
  {
    hide ReadBatch, CheckBatch;
  }

  lemma {:induction false} ExecuteOf(i: Intent, deadline: bool, args: bytes)
    ensures var call := DecodeExecute(deadline, args);
            CheckExecute(i, deadline, args) ==
            if call.Err? || |call.value.0| != |call.value.1| || call.value.0 == [] then Err
            else
              (var t := CheckCommands(i, call.value.0, call.value.1);
               if t.Ok? && Balanced(i, t.value) then Ok(t.value.delivered) else Err)
  {
    hide DecodeExecute, CheckCommands, Balanced;
  }

  lemma {:induction false} NothingChecked(i: Intent, codes: bytes, inputs: seq<bytes>)
    requires |codes| == |inputs|
    ensures CheckCommands(i, codes[..0], inputs[..0]) == Ok(Tally(0, 0, 0, 0))
  {}

  lemma Added(a: Tally, b: Tally, total: nat, least: nat)
    ensures Add(a, b) == Tally(a.userIn + b.userIn, a.wrapped + b.wrapped, a.v4Native + b.v4Native, a.delivered + b.delivered)
    ensures NOTHING.(v4Native := total, delivered := least) == Tally(0, 0, total, least)
    ensures NOTHING.(userIn := total, delivered := least) == Tally(total, 0, 0, least)
  {}

  /** The command loop: four sums, and the first command that cannot be bounded refuses the call. */
  method DecodeUniversalRouter(i: Intent, deadline: bool, args: bytes) returns (r: Result<nat>)
    ensures r == CheckExecute(i, deadline, args)
  {
    hide *;
    ExecuteOf(i, deadline, args);
    var call := DecodeExecute(deadline, args);
    if call.Err? {
      return Err;
    }
    var codes, inputs := call.value.0, call.value.1;
    if |codes| != |inputs| || codes == [] {
      return Err;
    }
    var userIn: nat, wrapped: nat, v4Native: nat, delivered: nat := 0, 0, 0, 0;
    NothingChecked(i, codes, inputs);
    for k := 0 to |codes|
      invariant CheckCommands(i, codes[..k], inputs[..k]) == Ok(Tally(userIn, wrapped, v4Native, delivered))
    {
      OneOf(i, codes[k], inputs[k]);
      if CheckCommands(i, codes, inputs).Ok? {
        CheckedEach(i, codes, inputs, k);
      }
      if codes[k] == 0x10 {
        var v4 := DecodeV4Swap(i, inputs[k]);
        if v4.Err? {
          return Err;
        }
        CheckedNext(i, codes, inputs, k);
        Added(Tally(userIn, wrapped, v4Native, delivered), CheckOne(i, codes[k], inputs[k]).value, v4.value.0, v4.value.1);
        if IsNative(i.sellToken) {
          v4Native := v4Native + v4.value.0;
        } else {
          userIn := userIn + v4.value.0;
        }
        delivered := delivered + v4.value.1;
      } else {
        var c := ReadCommand(codes[k], inputs[k]);
        if c.Err? {
          return Err;
        }
        var t := Contribution(i, c.value);
        if t.Err? {
          return Err;
        }
        CheckedNext(i, codes, inputs, k);
        Added(Tally(userIn, wrapped, v4Native, delivered), t.value, 0, 0);
        userIn, wrapped := userIn + t.value.userIn, wrapped + t.value.wrapped;
        v4Native, delivered := v4Native + t.value.v4Native, delivered + t.value.delivered;
      }
    }
    assert codes[..|codes|] == codes && inputs[..|codes|] == inputs;
    if !Balanced(i, Tally(userIn, wrapped, v4Native, delivered)) {
      return Err;
    }
    return Ok(delivered);
  }

  // ----- the batch input is canonical -----

  lemma {:induction false} EachIsItems(params: seq<bytes>)
    ensures var r := EncodeEach(params);
            EncodeItems(Base(DynBytes), BytesItems(params)) == if r.Ok? then Ok(DynParts(r.value)) else Err
  {
    hide EncodeDynamicBytes;
    var items := BytesItems(params);
    if params != [] {
      EachIsItems(params[1..]);
      assert items[1..] == BytesItems(params[1..]);
      var r := EncodeEach(params);
      if r.Ok? {
        var rest := EncodeEach(params[1..]).value;
        assert DynParts(r.value) == [Part(r.value[0], true)] + DynParts(rest);
      }
    }
  }

  lemma PlanIsArgs(codes: bytes, params: seq<bytes>)
    ensures EncodePlan(codes, params) == EncodeArgs(PLAN, [VBytes(codes), VList(BytesItems(params))])
  {
    hide Word, EncodeDynamicBytes, EncodeItems, Heads, Tails, EncodeEach;
    var values := [VBytes(codes), VList(BytesItems(params))];
    EachIsItems(params);
    assert PLAN[1..] == [Array(None, Base(DynBytes))] && values[1..] == [VList(BytesItems(params))];
    assert PLAN[1..][1..] == [] && values[1..][1..] == [];
    var a := EncodeValue(PLAN[0], values[0]);
    var p := EncodeValue(PLAN[1], values[1]);
    assert a == EncodeDynamicBytes(codes);
    assert p == if EncodeEach(params).Ok? then EncDynArray(EncodeEach(params).value) else Err;
    if a.Ok? && p.Ok? {
      var parts := [Part(a.value, true), Part(p.value, true)];
      assert [Part(p.value, true)] + [] == [Part(p.value, true)];
      assert [Part(a.value, true)] + [Part(p.value, true)] == parts;
      assert EncodeParts(PLAN[1..], values[1..]) == Ok([Part(p.value, true)]);
      assert EncodeParts(PLAN, values) == Ok(parts);
      assert parts[1..] == [Part(p.value, true)] && parts[1..][1..] == [];
      assert HeadSize([]) == 0 && HeadSize(parts[1..]) == 32 && HeadSize(parts) == 64;
      assert EncodePlan(codes, params) == HeadTail(parts);
      assert HeadTail(parts) == Layout(parts);
      assert EncodeArgs(PLAN, values) == Layout(parts);
    } else {
      assert p.Err? ==> EncodeParts(PLAN[1..], values[1..]).Err?;
      assert EncodeParts(PLAN, values).Err?;
    }
  }

  lemma PlanRead(input: bytes, codes: bytes, params: seq<bytes>)
    requires EncodePlan(codes, params) == Ok(input)
    ensures DecodePlan(input) == Ok((codes, params))
  {
    hide EncodePlan, DecodeArgs, EncodeArgs;
    PlanIsArgs(codes, params);
    var vals := [VBytes(codes), VList(BytesItems(params))];
    assert input + [] == input;
    PlanTypes();
    RoundTrip(PLAN, vals, []);
    assert RawItems(BytesItems(params)) == params;
  }

  lemma PlanTypes()
    ensures Aligned(PLAN) && forall k :: 0 <= k < |PLAN| ==> ValidType(PLAN[k]) && Supported(PLAN[k])
  {
    assert IsDynamic(PLAN[0]) && IsDynamic(PLAN[1]);
  }

  /** A batch input is accepted as a plan exactly when it is that plan's encoding. */
  lemma PlanCanonical(input: bytes, codes: bytes, params: seq<bytes>)
    ensures DecodePlan(input) == Ok((codes, params)) <==> EncodePlan(codes, params) == Ok(input)
  {
    hide DecodeArgs, EncodePlan;
    if EncodePlan(codes, params) == Ok(input) {
      PlanRead(input, codes, params);
    }
  }
}
