/** Exactly which calls of `execute` the checker accepts. A call is described by the arguments its
    encoder was given; the verdict on its bytes is stated over those arguments alone. */
module RouterComplete {
  import opened Wrappers
  import opened Radix
  import opened Bytes
  import opened Abi
  import opened AbiRoundTrip
  import opened V4Swap
  import opened V4Args
  import opened UniversalRouter
  import opened LpCalldata
  import opened LpBuilders
  import CallMeaning
  import BitGroups

  // ----- arguments and their encoding -----

  /** The actions of a V4 batch. */
  datatype Act =
    | SwapOne(single: ExactInSingle)
    | SwapPath(multi: ExactInput)
    | SettleSome(currency: nat, amount: nat, byUser: bool)
    | SettleEvery(currency: nat, most: nat)
    | TakeSome(currency: nat, recipient: nat, amount: nat)
    | TakeEvery(currency: nat, least: nat)

  /** The commands of the router. Addresses are numbers; a v3 path is packed bytes. */
  datatype Cmd =
    | SwapV3(recipient: nat, amountIn: nat, minOut: nat, packed: bytes, byUser: bool)
    | SwapV2(recipient: nat, amountIn: nat, minOut: nat, hops: seq<nat>, byUser: bool)
    | WrapEth(recipient: nat, amount: nat)
    | UnwrapWeth(recipient: nat, least: nat)
    | SweepOut(token: nat, recipient: nat, least: nat)
    | Batch(acts: seq<Act>)

  function ActCode(a: Act): byte {
    match a
    case SwapOne(_) => 0x06
    case SwapPath(_) => 0x07
    case SettleSome(_, _, _) => 0x0B
    case SettleEvery(_, _) => 0x0C
    case TakeSome(_, _, _) => 0x0E
    case TakeEvery(_, _) => 0x0F
  }

  function CmdCode(c: Cmd): byte {
    match c
    case SwapV3(_, _, _, _, _) => 0x00
    case SwapV2(_, _, _, _, _) => 0x08
    case WrapEth(_, _) => 0x0B
    case UnwrapWeth(_, _) => 0x0C
    case SweepOut(_, _, _) => 0x04
    case Batch(_) => 0x10
  }

  function ActCodes(acts: seq<Act>): (codes: bytes)
    ensures |codes| == |acts|
  {
    seq(|acts|, k requires 0 <= k < |acts| => ActCode(acts[k]))
  }

  function CmdCodes(cmds: seq<Cmd>): (codes: bytes)
    ensures |codes| == |cmds|
  {
    seq(|cmds|, k requires 0 <= k < |cmds| => CmdCode(cmds[k]))
  }

  function Addrs(hops: seq<nat>): (items: seq<Val>)
    ensures |items| == |hops|
  {
    seq(|hops|, k requires 0 <= k < |hops| => Addr(hops[k]))
  }

  function ActInput(a: Act): Result<bytes>
  {
    match a
    case SwapOne(x) => SingleInput(x)
    case SwapPath(x) => PathInput(x)
    case SettleSome(cur, amt, user) =>
      if !IsAddress(cur) then Err
      else EncodeArgs([Base(Address), Base(UInt(256)), Base(Bool)], [Addr(cur), VInt(amt), VBool(user)])
    case SettleEvery(cur, most) =>
      if !IsAddress(cur) then Err else EncodeArgs([Base(Address), Base(UInt(256))], [Addr(cur), VInt(most)])
    case TakeSome(cur, rcpt, amt) =>
      if !IsAddress(cur) || !IsAddress(rcpt) then Err
      else EncodeArgs([Base(Address), Base(Address), Base(UInt(256))], [Addr(cur), Addr(rcpt), VInt(amt)])
    case TakeEvery(cur, least) =>
      if !IsAddress(cur) then Err else EncodeArgs([Base(Address), Base(UInt(256))], [Addr(cur), VInt(least)])
  }

  function ActInputs(acts: seq<Act>): (r: Result<seq<bytes>>)
    ensures r.Ok? ==> |r.value| == |acts|
  {
    if acts == [] then Ok([])
    else
      var n := |acts| - 1;
      var before :- ActInputs(acts[..n]);
      var last :- ActInput(acts[n]);
      Ok(before + [last])
  }

  function SwapInput(pathType: AbiType, rcpt: nat, a: nat, m: nat, path: Val, user: bool): Result<bytes>
  {
    if !IsAddress(rcpt) then Err
    else EncodeArgs([Base(Address), Base(UInt(256)), Base(UInt(256)), pathType, Base(Bool)],
                    [Addr(rcpt), VInt(a), VInt(m), path, VBool(user)])
  }

  function CmdInput(c: Cmd): Result<bytes>
  {
    match c
    case SwapV3(rcpt, a, m, packed, user) => SwapInput(Base(DynBytes), rcpt, a, m, VBytes(packed), user)
    case SwapV2(rcpt, a, m, hops, user) =>
      if exists k :: 0 <= k < |hops| && !IsAddress(hops[k]) then Err
      else SwapInput(Array(None, Base(Address)), rcpt, a, m, VList(Addrs(hops)), user)
    case WrapEth(rcpt, a) =>
      if !IsAddress(rcpt) then Err else EncodeArgs([Base(Address), Base(UInt(256))], [Addr(rcpt), VInt(a)])
    case UnwrapWeth(rcpt, least) =>
      if !IsAddress(rcpt) then Err else EncodeArgs([Base(Address), Base(UInt(256))], [Addr(rcpt), VInt(least)])
    case SweepOut(tok, rcpt, least) =>
      if !IsAddress(tok) || !IsAddress(rcpt) then Err
      else EncodeArgs([Base(Address), Base(Address), Base(UInt(256))], [Addr(tok), Addr(rcpt), VInt(least)])
    case Batch(acts) =>
      var params :- ActInputs(acts);
      EncodeArgs([Base(DynBytes), Array(None, Base(DynBytes))], [VBytes(ActCodes(acts)), VList(BytesItems(params))])
  }

  function CmdInputs(cmds: seq<Cmd>): (r: Result<seq<bytes>>)
    ensures r.Ok? ==> |r.value| == |cmds|
  {
    if cmds == [] then Ok([])
    else
      var n := |cmds| - 1;
      var before :- CmdInputs(cmds[..n]);
      var last :- CmdInput(cmds[n]);
      Ok(before + [last])
  }

  /** The arguments of `execute(bytes,bytes[])` or `execute(bytes,bytes[],uint256)`. */
  function CallData(cmds: seq<Cmd>, deadline: Option<nat>): Result<bytes>
  {
    var inputs :- CmdInputs(cmds);
    var vals := [VBytes(CmdCodes(cmds)), VList(BytesItems(inputs))];
    match deadline
    case None => EncodeArgs([Base(DynBytes), Array(None, Base(DynBytes))], vals)
    case Some(d) => EncodeArgs([Base(DynBytes), Array(None, Base(DynBytes)), Base(UInt(256))], vals + [VInt(d)])
  }

  // ----- what is approved -----

  predicate NativeLike(a: nat) { a == 0 || a == 0xeeeeeeeeeeeeeeeeeeeeeeeeeeeeeeeeeeeeeeee }

  predicate Alike(a: nat, b: nat) { a == b || (NativeLike(a) && NativeLike(b)) }

  /** Recipient 1 is the caller, recipient 2 the router. */
  predicate Mine(i: Intent, a: nat) { a == 1 || a == i.wallet }

  /** A swap the wallet pays for sells the approved token, and not "all there is"; its output is the
      approved token for the wallet, or stays in the router. */
  predicate SwapOk(i: Intent, rcpt: nat, amountIn: nat, byUser: bool, first: nat, last: nat) {
    && (byUser ==> !NativeLike(i.sellToken) && first == i.sellToken && amountIn != Pow(2, 255))
    && (if Mine(i, rcpt) then !NativeLike(i.buyToken) && last == i.buyToken else rcpt == 2)
  }

  predicate SwapActOk(i: Intent, a: Act) {
    match a
    case SwapOne(x) =>
      && |x.hookData| <= 4096 && x.amountIn != 0
      && Alike(if x.zeroForOne then x.currency0 else x.currency1, i.sellToken)
      && Alike(if x.zeroForOne then x.currency1 else x.currency0, i.buyToken)
    case SwapPath(x) =>
      && 1 <= |x.path| <= 8 && (forall k :: 0 <= k < |x.path| ==> |x.path[k].hookData| <= 4096)
      && x.amountIn != 0
      && Alike(x.currencyIn, i.sellToken) && Alike(x.path[|x.path| - 1].currency, i.buyToken)
    case _ => false
  }

  predicate SettleOk(i: Intent, total: nat, a: Act) {
    match a
    case SettleSome(cur, amt, user) => Alike(cur, i.sellToken) && (amt == 0 || amt == total) && (user || NativeLike(i.sellToken))
    case SettleEvery(cur, _) => Alike(cur, i.sellToken)
    case _ => false
  }

  predicate TakeOk(i: Intent, a: Act) {
    match a
    case TakeSome(cur, rcpt, amt) => Alike(cur, i.buyToken) && Mine(i, rcpt) && amt == 0
    case TakeEvery(cur, _) => Alike(cur, i.buyToken)
    case _ => false
  }

  function Sum<T>(xs: seq<T>, f: T -> nat): nat
  {
    if xs == [] then 0 else Sum(xs[..|xs| - 1], f) + f(xs[|xs| - 1])
  }

  function AmountIn(a: Act): nat {
    if a.SwapOne? then a.single.amountIn else if a.SwapPath? then a.multi.amountIn else 0
  }

  function MinOut(a: Act): nat {
    if a.SwapOne? then a.single.minOut else if a.SwapPath? then a.multi.minOut else 0
  }

  function LeastTaken(a: Act): nat { if a.TakeEvery? then a.least else 0 }

  function BatchIn(acts: seq<Act>): nat { if |acts| < 2 then 0 else Sum(acts[..|acts| - 2], AmountIn) }

  /** The minimums of the swaps, or the minimum of the take where that is more. */
  function BatchOut(acts: seq<Act>): nat {
    if |acts| < 2 then 0
    else Max(Sum(acts[..|acts| - 2], MinOut), Max(LeastTaken(acts[|acts| - 2]), LeastTaken(acts[|acts| - 1])))
  }

  /** One swap or more, then a settle and a take in either order. */
  predicate BatchOk(i: Intent, acts: seq<Act>) {
    && |acts| >= 3
    && (forall k :: 0 <= k < |acts| - 2 ==> SwapActOk(i, acts[k]))
    && var a, b := acts[|acts| - 2], acts[|acts| - 1];
       (SettleOk(i, BatchIn(acts), a) && TakeOk(i, b)) || (TakeOk(i, a) && SettleOk(i, BatchIn(acts), b))
  }

  predicate Approved(i: Intent, c: Cmd) {
    match c
    case SwapV3(rcpt, a, _, packed, user) =>
      && |packed| >= 43 && (|packed| - 20) % 23 == 0
      && SwapOk(i, rcpt, a, user, BigEndian(packed[..20]), BigEndian(packed[|packed| - 20..]))
    case SwapV2(rcpt, a, _, hops, user) => |hops| >= 2 && SwapOk(i, rcpt, a, user, hops[0], hops[|hops| - 1])
    case WrapEth(rcpt, _) => NativeLike(i.sellToken) && rcpt == 2
    case UnwrapWeth(rcpt, _) => NativeLike(i.buyToken) && Mine(i, rcpt)
    case SweepOut(tok, rcpt, _) => !NativeLike(i.buyToken) && tok == i.buyToken && Mine(i, rcpt)
    case Batch(acts) => BatchOk(i, acts)
  }

  /** Pulled from the wallet. */
  function PulledBy(i: Intent): Cmd -> nat {
    (c: Cmd) =>
      match c
      case SwapV3(_, a, _, _, user) => if user then a else 0
      case SwapV2(_, a, _, _, user) => if user then a else 0
      case Batch(acts) => if NativeLike(i.sellToken) then 0 else BatchIn(acts)
      case _ => 0
  }

  /** Paid from the value of the transaction. */
  function PaidBy(i: Intent): Cmd -> nat {
    (c: Cmd) =>
      match c
      case WrapEth(_, a) => a
      case Batch(acts) => if NativeLike(i.sellToken) then BatchIn(acts) else 0
      case _ => 0
  }

  /** Guaranteed to the wallet. */
  function Guaranteed(i: Intent): Cmd -> nat {
    (c: Cmd) =>
      match c
      case SwapV3(rcpt, _, m, _, _) => if Mine(i, rcpt) then m else 0
      case SwapV2(rcpt, _, m, _, _) => if Mine(i, rcpt) then m else 0
      case WrapEth(_, _) => 0
      case UnwrapWeth(_, least) => least
      case SweepOut(_, _, least) => least
      case Batch(acts) => BatchOut(acts)
  }

  predicate AllApproved(i: Intent, cmds: seq<Cmd>) { forall k :: 0 <= k < |cmds| ==> Approved(i, cmds[k]) }

  predicate SpendsSell(i: Intent, cmds: seq<Cmd>) {
    if NativeLike(i.sellToken) then Sum(cmds, PaidBy(i)) == i.sellAmount == i.value
    else Sum(cmds, PulledBy(i)) == i.sellAmount
  }

  // ----- the words of an argument list -----

  lemma {:induction false} UIntIs(n: nat, w: bytes)
    requires EncodeValue(Base(UInt(256)), VInt(n)) == Ok(w)
    ensures Word(n) == Ok(w)
  {
    hide Pow, WordRange, Word;
  }

  lemma {:induction false} TwoArgs(ts: seq<AbiType>, vs: seq<Val>, e: bytes) returns (x: bytes, y: bytes)
    requires |ts| == |vs| == 2 && AllStatic(ts) && EncodeArgs(ts, vs) == Ok(e)
    ensures EncodeValue(ts[0], vs[0]) == Ok(x) && EncodeValue(ts[1], vs[1]) == Ok(y) && e == x + y && |x| == |y| == 32
  {
    hide EncodeArgs, EncodeValue;
    TupleIsArgs(ts, vs);
    assert ts[1..][1..] == [] && vs[1..][1..] == [] && Tuple([], []) == Ok([]);
    assert Tuple(ts, vs).Ok? && Tuple(ts[1..], vs[1..]).Ok?;
    x, y := EncodeValue(ts[0], vs[0]).value, EncodeValue(ts[1], vs[1]).value;
    assert y + [] == y;
    BaseWord(ts[0], vs[0], x);
    BaseWord(ts[1], vs[1], y);
  }

  lemma {:induction false} ThreeArgs(ts: seq<AbiType>, vs: seq<Val>, e: bytes) returns (x: bytes, y: bytes, z: bytes)
    requires |ts| == |vs| == 3 && AllStatic(ts) && EncodeArgs(ts, vs) == Ok(e)
    ensures EncodeValue(ts[0], vs[0]) == Ok(x) && EncodeValue(ts[1], vs[1]) == Ok(y) && EncodeValue(ts[2], vs[2]) == Ok(z)
    ensures e == x + (y + z) && |x| == |y| == |z| == 32
  {
    hide EncodeArgs, EncodeValue;
    TupleIsArgs(ts, vs);
    var ts1, vs1 := ts[1..], vs[1..];
    var ts2, vs2 := ts1[1..], vs1[1..];
    assert ts2[1..] == [] && vs2[1..] == [] && Tuple([], []) == Ok([]);
    assert Tuple(ts, vs).Ok? && Tuple(ts1, vs1).Ok? && Tuple(ts2, vs2).Ok?;
    assert ts1[0] == ts[1] && ts2[0] == ts[2] && vs1[0] == vs[1] && vs2[0] == vs[2];
    x, y, z := EncodeValue(ts[0], vs[0]).value, EncodeValue(ts[1], vs[1]).value, EncodeValue(ts[2], vs[2]).value;
    assert z + [] == z;
    BaseWord(ts[0], vs[0], x);
    BaseWord(ts[1], vs[1], y);
    BaseWord(ts[2], vs[2], z);
  }

  lemma {:induction false} ReadTwo(x: bytes, y: bytes, a: nat, n: nat)
    requires Word(a) == Ok(x) && Word(n) == Ok(y) && |x| == |y| == 32 && a < UINT160
    ensures ReadUInt(x + y, 0, UINT160) == Ok(a) && ReadNat(x + y, 32) == Ok(n)
  {
    hide Word, ReadUInt, ReadNat;
    StandsInside([], x, y);
    StandsInside(x, y, []);
    assert [] + x + y == x + y + [] == x + y;
    UIntRead(a, x, x + y, 0, UINT160);
    ReadNatAt(n, y, x + y, 32);
  }

  lemma {:induction false} StandThree(x: bytes, y: bytes, z: bytes)
    requires |x| == |y| == |z| == 32
    ensures StandsAt(x, x + (y + z), 0) && StandsAt(y, x + (y + z), 32) && StandsAt(z, x + (y + z), 64)
  {
    var e := x + (y + z);
    assert e[0..32] == x && e[32..64] == y && e[64..96] == z;
  }

  // ----- reading the actions -----

  /** What the decoders ask of a swap before its tokens are looked at. */
  predicate ActReadable(a: Act) {
    match a
    case SwapOne(x) => |x.hookData| <= 4096
    case SwapPath(x) => 1 <= |x.path| <= 8 && forall k :: 0 <= k < |x.path| ==> |x.path[k].hookData| <= 4096
    case _ => true
  }

  function ToAction(a: Act): Action
    requires ActReadable(a)
  {
    match a
    case SwapOne(x) => SingleSwap(x)
    case SwapPath(x) => PathSwap(x)
    case SettleSome(cur, amt, user) => Settle(cur, amt, user)
    case SettleEvery(cur, most) => SettleAll(cur, most)
    case TakeSome(cur, rcpt, amt) => Take(cur, rcpt, amt)
    case TakeEvery(cur, least) => TakeAll(cur, least)
  }

  lemma {:induction false} PairRead(cur: nat, n: nat, p: bytes)
    requires IsAddress(cur) && EncodeArgs([Base(Address), Base(UInt(256))], [Addr(cur), VInt(n)]) == Ok(p)
    ensures |p| == 64 && ReadUInt(p, 0, UINT160) == Ok(cur) && ReadNat(p, 32) == Ok(n)
  {
    hide EncodeArgs, EncodeValue, Word, ReadUInt, ReadNat, Addr, IsAddress;
    var ts, vs := [Base(Address), Base(UInt(256))], [Addr(cur), VInt(n)];
    var x, y := TwoArgs(ts, vs, p);
    AddrIs(cur);
    UIntIs(n, y);
    ReadTwo(x, y, cur, n);
  }

  lemma {:induction false} SettleRead(cur: nat, n: nat, user: bool, p: bytes)
    requires IsAddress(cur)
    requires EncodeArgs([Base(Address), Base(UInt(256)), Base(Bool)], [Addr(cur), VInt(n), VBool(user)]) == Ok(p)
    ensures |p| == 96 && ReadUInt(p, 0, UINT160) == Ok(cur) && ReadNat(p, 32) == Ok(n) && ReadBool(p, 64) == Ok(user)
  {
    hide EncodeArgs, EncodeValue, Word, ReadUInt, ReadNat, Addr, IsAddress, StandsAt;
    var ts, vs := [Base(Address), Base(UInt(256)), Base(Bool)], [Addr(cur), VInt(n), VBool(user)];
    var x, y, z := ThreeArgs(ts, vs, p);
    AddrIs(cur);
    UIntIs(n, y);
    FlagIs(user);
    StandThree(x, y, z);
    UIntRead(cur, x, p, 0, UINT160);
    ReadNatAt(n, y, p, 32);
    UIntRead(if user then 1 else 0, z, p, 64, 2);
  }

  lemma {:induction false} TakeRead(cur: nat, rcpt: nat, n: nat, p: bytes)
    requires IsAddress(cur) && IsAddress(rcpt)
    requires EncodeArgs([Base(Address), Base(Address), Base(UInt(256))], [Addr(cur), Addr(rcpt), VInt(n)]) == Ok(p)
    ensures |p| == 96 && ReadUInt(p, 0, UINT160) == Ok(cur) && ReadUInt(p, 32, UINT160) == Ok(rcpt) && ReadNat(p, 64) == Ok(n)
  {
    hide EncodeArgs, EncodeValue, Word, ReadUInt, ReadNat, Addr, IsAddress, StandsAt;
    var ts, vs := [Base(Address), Base(Address), Base(UInt(256))], [Addr(cur), Addr(rcpt), VInt(n)];
    var x, y, z := ThreeArgs(ts, vs, p);
    AddrIs(cur);
    AddrIs(rcpt);
    UIntIs(n, z);
    StandThree(x, y, z);
    UIntRead(cur, x, p, 0, UINT160);
    UIntRead(rcpt, y, p, 32, UINT160);
    ReadNatAt(n, z, p, 64);
  }

  /** The decoder of a batch reads every encoded action. */
  lemma {:induction false} ActRead(a: Act, p: bytes)
    requires ActInput(a) == Ok(p)
    ensures ReadAction(ActCode(a), p) == if ActReadable(a) then Ok(ToAction(a)) else Err
  {
    hide SingleInput, PathInput, EncodeArgs, EncodeSingle, EncodeExactIn, DecodeSingle, DecodeExactIn, TypedSingle,
         TypedExactInput, ReadUInt, ReadNat, ReadBool, IsAddress, Addr;
    match a
    case SwapOne(x) =>
      SingleIsArgs(x, p);
      SingleAccepted(x, p);
    case SwapPath(x) =>
      PathIsArgs(x, p);
      ExactInAccepted(x, p);
    case SettleSome(cur, amt, user) => SettleRead(cur, amt, user, p);
    case SettleEvery(cur, most) => PairRead(cur, most, p);
    case TakeSome(cur, rcpt, amt) => TakeRead(cur, rcpt, amt, p);
    case TakeEvery(cur, least) => PairRead(cur, least, p);
  }

  predicate AllReadable(acts: seq<Act>) { forall k :: 0 <= k < |acts| ==> ActReadable(acts[k]) }

  function ToActions(acts: seq<Act>): (actions: seq<Action>)
    requires AllReadable(acts)
    ensures |actions| == |acts|
  {
    seq(|acts|, k requires 0 <= k < |acts| => ToAction(acts[k]))
  }

  lemma {:induction false} ActsRead(acts: seq<Act>, params: seq<bytes>)
    requires ActInputs(acts) == Ok(params)
    ensures ReadActions(ActCodes(acts), params) == if AllReadable(acts) then Ok(ToActions(acts)) else Err
    decreases |acts|
  {
    hide ActInput, ReadAction, ActReadable, ToAction, ActCode;
    if acts != [] {
      var n := |acts| - 1;
      var before := ActInputs(acts[..n]).value;
      ActsRead(acts[..n], before);
      ActRead(acts[n], params[n]);
      assert params[..n] == before && ActCodes(acts)[..n] == ActCodes(acts[..n]);
      assert AllReadable(acts) <==> AllReadable(acts[..n]) && ActReadable(acts[n]);
      if AllReadable(acts) {
        assert ToActions(acts) == ToActions(acts[..n]) + [ToAction(acts[n])];
      }
    }
  }

  /** The decoder of a batch input reads the encoded batch. */
  lemma {:induction false} BatchRead(acts: seq<Act>, input: bytes)
    requires CmdInput(Batch(acts)) == Ok(input)
    ensures ReadBatch(input) == if AllReadable(acts) then Ok(ToActions(acts)) else Err
  {
    hide EncodeArgs, EncodePlan, DecodePlan, ReadActions, ActInputs, AllReadable;
    var params := ActInputs(acts).value;
    PlanIsArgs(ActCodes(acts), params);
    PlanRead(input, ActCodes(acts), params);
    ActsRead(acts, params);
  }

  // ----- the verdict on a batch -----

  lemma NativeIs(a: nat, b: nat)
    ensures IsNative(a) <==> NativeLike(a)
    ensures SameToken(a, b) <==> Alike(a, b)
  {}

  lemma {:induction false} SwapActIs(i: Intent, a: Act)
    requires ActReadable(a)
    ensures SwapApproved(i, ToAction(a)) <==> SwapActOk(i, a)
    ensures SwapActOk(i, a) ==> ToAction(a).Swap4? && ToAction(a).amountIn == AmountIn(a) && ToAction(a).minOut == MinOut(a)
  {
    var t := ToAction(a);
    if t.Swap4? {
      NativeIs(t.currencyIn, i.sellToken);
      NativeIs(t.currencyOut, i.buyToken);
    }
    hide SameToken, Alike;
  }

  predicate SwapsOk(i: Intent, acts: seq<Act>) { forall k :: 0 <= k < |acts| ==> SwapActOk(i, acts[k]) }

  lemma {:induction false} SumsAre(i: Intent, acts: seq<Act>)
    requires AllReadable(acts)
    ensures SwapSums(i, ToActions(acts)) == if SwapsOk(i, acts) then Ok((Sum(acts, AmountIn), Sum(acts, MinOut))) else Err
    decreases |acts|
  {
    hide SwapApproved, SwapActOk, ActReadable, ToAction, AmountIn, MinOut;
    if acts != [] {
      var n := |acts| - 1;
      SumsAre(i, acts[..n]);
      assert ToActions(acts)[..n] == ToActions(acts[..n]);
      SwapActIs(i, acts[n]);
      assert SwapsOk(i, acts) <==> SwapsOk(i, acts[..n]) && SwapActOk(i, acts[n]);
    }
  }

  lemma {:induction false} SettleIs(i: Intent, total: nat, least: nat, a: Act)
    requires ActReadable(a) && IsSettle(ToAction(a))
    ensures EndApproved(i, total, least, ToAction(a)) == if SettleOk(i, total, a) then Ok(least) else Err
    ensures LeastTaken(a) == 0 && !TakeOk(i, a)
  {
    NativeIs(i.sellToken, i.sellToken);
    NativeIs(ToAction(a).currency, i.sellToken);
    hide SameToken, Alike;
  }

  lemma {:induction false} TakeIs(i: Intent, total: nat, least: nat, a: Act)
    requires ActReadable(a) && IsTake(ToAction(a))
    ensures EndApproved(i, total, least, ToAction(a)) == if TakeOk(i, a) then Ok(Max(least, LeastTaken(a))) else Err
    ensures !SettleOk(i, total, a)
  {
    NativeIs(ToAction(a).currency, i.buyToken);
    hide SameToken, Alike;
  }

  lemma {:induction false} OtherEnd(i: Intent, total: nat, a: Act)
    requires ActReadable(a)
    ensures SettleOk(i, total, a) ==> IsSettle(ToAction(a))
    ensures TakeOk(i, a) ==> IsTake(ToAction(a))
  {}

  lemma {:induction false} TwoEnds(i: Intent, total: nat, least: nat, x: Action, y: Action)
    ensures Ends(i, total, least, [x, y]) ==
            (var m := EndApproved(i, total, least, x); if m.Err? then Err else EndApproved(i, total, m.value, y))
  {
    hide EndApproved;
    assert [x, y][..1] == [x] && [x][..0] == [] && Ends(i, total, least, []) == Ok(least);
    assert Ends(i, total, least, [x]) == EndApproved(i, total, least, x);
  }

  /** The two closing actions of a batch. */
  lemma {:induction false} EndsAre(i: Intent, total: nat, least: nat, a: Act, b: Act)
    requires ActReadable(a) && ActReadable(b)
    ensures var x, y := ToAction(a), ToAction(b);
            var ok := (SettleOk(i, total, a) && TakeOk(i, b)) || (TakeOk(i, a) && SettleOk(i, total, b));
            (if SettleAndTake(x, y) then Ends(i, total, least, [x, y]) else Err) ==
            if ok then Ok(Max(least, Max(LeastTaken(a), LeastTaken(b)))) else Err
  {
    var x, y := ToAction(a), ToAction(b);
    TwoEnds(i, total, least, x, y);
    OtherEnd(i, total, a);
    OtherEnd(i, total, b);
    hide EndApproved, SettleOk, TakeOk, ToAction, ActReadable, Ends, LeastTaken;
    if IsSettle(x) && IsTake(y) {
      SettleIs(i, total, least, a);
      TakeIs(i, total, least, b);
    } else if IsTake(x) && IsSettle(y) {
      TakeIs(i, total, least, a);
      SettleIs(i, total, Max(least, LeastTaken(a)), b);
    } else {
      hide IsSettle, IsTake;
    }
  }

  lemma {:induction false} BatchShape(i: Intent, acts: seq<Act>)
    requires |acts| >= 3
    ensures BatchOk(i, acts) <==>
            && SwapsOk(i, acts[..|acts| - 2])
            && var a, b := acts[|acts| - 2], acts[|acts| - 1];
               (SettleOk(i, BatchIn(acts), a) && TakeOk(i, b)) || (TakeOk(i, a) && SettleOk(i, BatchIn(acts), b))
  {
    hide SwapActOk, SettleOk, TakeOk, BatchIn;
    var front := acts[..|acts| - 2];
    assert forall k :: 0 <= k < |front| ==> front[k] == acts[k];
  }

  lemma {:induction false} BatchChecked(i: Intent, acts: seq<Act>)
    requires AllReadable(acts)
    ensures CheckBatch(i, ToActions(acts)) == if BatchOk(i, acts) then Ok((BatchIn(acts), BatchOut(acts))) else Err
  {
    hide SwapSums, Ends, SettleAndTake, BatchOk, SwapsOk, SettleOk, TakeOk, ToAction, ActReadable, Sum, Max;
    if |acts| >= 3 {
      var n := |acts| - 2;
      var actions := ToActions(acts);
      BatchShape(i, acts);
      assert AllReadable(acts[..n]) && ToActions(acts[..n]) == actions[..n];
      SumsAre(i, acts[..n]);
      assert actions[n..] == [ToAction(acts[n]), ToAction(acts[n + 1])];
      assert ActReadable(acts[n]) && ActReadable(acts[n + 1]);
      EndsAre(i, BatchIn(acts), Sum(acts[..n], MinOut), acts[n], acts[n + 1]);
    } else {
      TooShort(i, acts);
    }
  }

  lemma TooShort(i: Intent, acts: seq<Act>)
    requires |acts| < 3
    ensures !BatchOk(i, acts)
  {}

  // ----- reading the commands -----

  predicate Readable(c: Cmd) {
    match c
    case SwapV3(_, _, _, packed, _) => |packed| >= 43 && (|packed| - 20) % 23 == 0
    case SwapV2(_, _, _, hops, _) => |hops| >= 2
    case Batch(acts) => AllReadable(acts)
    case _ => true
  }

  function ToCommand(c: Cmd): Command
    requires Readable(c)
  {
    match c
    case SwapV3(rcpt, a, m, packed, user) =>
      Swap(rcpt, a, m, BigEndian(packed[..20]), BigEndian(packed[|packed| - 20..]), user)
    case SwapV2(rcpt, a, m, hops, user) => Swap(rcpt, a, m, hops[0], hops[|hops| - 1], user)
    case WrapEth(rcpt, a) => Wrap(rcpt, a)
    case UnwrapWeth(rcpt, least) => Unwrap(rcpt, least)
    case SweepOut(tok, rcpt, least) => Sweep(tok, rcpt, least)
    case Batch(acts) => V4(ToActions(acts))
  }

  lemma AddrNat(n: nat)
    requires IsAddress(n)
    ensures NatOf(Addr(n)) == Ok(n)
  {
    AddrWord(n);
    hide ToBytes, BigEndian;
  }

  lemma {:induction false} BaseRead(types: seq<AbiType>, vals: seq<Val>, input: bytes)
    requires AllBase(types) && EncodeArgs(types, vals) == Ok(input)
    ensures DecodeArgs(types, input) == Ok(vals)
  {
    hide EncodeArgs, DecodeArgs;
    ArgsRead(types, vals, input, []);
    assert input + [] == input;
  }

  lemma {:induction false} PairCommandRead(code: byte, rcpt: nat, n: nat, input: bytes)
    requires code == 0x0B || code == 0x0C
    requires IsAddress(rcpt) && EncodeArgs([Base(Address), Base(UInt(256))], [Addr(rcpt), VInt(n)]) == Ok(input)
    ensures ReadCommand(code, input) == Ok(if code == 0x0B then Wrap(rcpt, n) else Unwrap(rcpt, n))
  {
    hide EncodeArgs, DecodeArgs, Addr, IsAddress;
    AddrNat(rcpt);
    BaseRead([Base(Address), Base(UInt(256))], [Addr(rcpt), VInt(n)], input);
  }

  lemma {:induction false} SweepCommandRead(tok: nat, rcpt: nat, n: nat, input: bytes)
    requires IsAddress(tok) && IsAddress(rcpt)
    requires EncodeArgs([Base(Address), Base(Address), Base(UInt(256))], [Addr(tok), Addr(rcpt), VInt(n)]) == Ok(input)
    ensures ReadCommand(0x04, input) == Ok(Sweep(tok, rcpt, n))
  {
    hide EncodeArgs, DecodeArgs, Addr, IsAddress;
    AddrNat(tok);
    AddrNat(rcpt);
    BaseRead([Base(Address), Base(Address), Base(UInt(256))], [Addr(tok), Addr(rcpt), VInt(n)], input);
  }

  lemma V2Types()
    ensures var types := [Base(Address), Base(UInt(256)), Base(UInt(256)), Array(None, Base(Address)), Base(Bool)];
            Aligned(types) && forall k :: 0 <= k < |types| ==> ValidType(types[k]) && Supported(types[k])
  {
    var types := [Base(Address), Base(UInt(256)), Base(UInt(256)), Array(None, Base(Address)), Base(Bool)];
    assert forall k :: 0 <= k < |types| ==> HeadWords(types[k]) == 1 || IsDynamic(types[k]);
  }

  lemma {:induction false} SwapInputRead(v2: bool, rcpt: nat, a: nat, m: nat, path: Val, user: bool, input: bytes)
    requires SwapInput(if v2 then Array(None, Base(Address)) else Base(DynBytes), rcpt, a, m, path, user) == Ok(input)
    ensures ReadCommand(if v2 then 0x08 else 0x00, input) ==
            (var t := PathTokens(path); if t.Err? then Err else Ok(Swap(rcpt, a, m, t.value.0, t.value.1, user)))
  {
    hide EncodeArgs, DecodeArgs, Addr, IsAddress, PathTokens;
    AddrNat(rcpt);
    var vals := [Addr(rcpt), VInt(a), VInt(m), path, VBool(user)];
    if v2 {
      V2Types();
      RoundTrip([Base(Address), Base(UInt(256)), Base(UInt(256)), Array(None, Base(Address)), Base(Bool)], vals, []);
      assert input + [] == input;
    } else {
      BaseRead([Base(Address), Base(UInt(256)), Base(UInt(256)), Base(DynBytes), Base(Bool)], vals, input);
    }
  }

  /** The checker reads every encoded command. */
  lemma {:induction false} CmdRead(c: Cmd, input: bytes)
    requires CmdInput(c) == Ok(input)
    ensures ReadCommand(CmdCode(c), input) == if Readable(c) then Ok(ToCommand(c)) else Err
  {
    hide ReadCommand, EncodeArgs, ReadBatch, Addr, IsAddress, SwapInput, BigEndian, AllReadable, ToActions;
    match c
    case SwapV3(rcpt, a, m, packed, user) => SwapInputRead(false, rcpt, a, m, VBytes(packed), user, input);
    case SwapV2(rcpt, a, m, hops, user) =>
      SwapInputRead(true, rcpt, a, m, VList(Addrs(hops)), user, input);
      HopTokens(hops);
    case WrapEth(rcpt, a) => PairCommandRead(0x0B, rcpt, a, input);
    case UnwrapWeth(rcpt, least) => PairCommandRead(0x0C, rcpt, least, input);
    case SweepOut(tok, rcpt, least) => SweepCommandRead(tok, rcpt, least, input);
    case Batch(acts) =>
      BatchRead(acts, input);
      BatchCommand(input);
  }

  lemma BatchCommand(input: bytes)
    ensures ReadCommand(0x10, input) == (var r := ReadBatch(input); if r.Err? then Err else Ok(V4(r.value)))
  {
    hide ReadBatch;
  }

  lemma {:induction false} HopTokens(hops: seq<nat>)
    requires forall k :: 0 <= k < |hops| ==> IsAddress(hops[k])
    ensures PathTokens(VList(Addrs(hops))) == if |hops| >= 2 then Ok((hops[0], hops[|hops| - 1])) else Err
  {
    hide Addr, IsAddress, NatOf;
    if |hops| >= 2 {
      AddrNat(hops[0]);
      AddrNat(hops[|hops| - 1]);
    }
  }

  // ----- the verdict on a command -----

  /** The checker's sums for one command. */
  predicate Tallied(i: Intent, c: Cmd, t: Tally) {
    t.userIn == PulledBy(i)(c) && t.wrapped + t.v4Native == PaidBy(i)(c) && t.delivered == Guaranteed(i)(c)
  }

  lemma {:induction false} HalfRange()
    ensures Pow(2, 255) == CONTRACT_BALANCE
  {
    TypeRanges();
    BitGroups.PowFacts();
    hide Pow;
    PowAdd(2, 128, 64);
    PowAdd(2, 192, 32);
    PowAdd(2, 224, 24);
    PowAdd(2, 248, 7);
    PowAdd(2, 32, 32);
    PowAdd(2, 16, 16);
    PowAdd(2, 8, 8);
    PowAdd(2, 4, 3);
    assert Pow(2, 7) == 128 && Pow(2, 16) == 0x1_0000 && Pow(2, 32) == 0x1_0000_0000 && Pow(2, 64) == 0x1_0000_0000_0000_0000;
  }

  lemma {:induction false} SwapIs(i: Intent, s: Command)
    requires s.Swap?
    ensures SwapPull(i, s).Ok? && SwapPays(i, s).Ok? <==> SwapOk(i, s.recipient, s.amountIn, s.byUser, s.tokenIn, s.tokenOut)
    ensures SwapPull(i, s).Ok? ==> SwapPull(i, s).value == if s.byUser then s.amountIn else 0
    ensures SwapPays(i, s).Ok? ==> SwapPays(i, s).value == if Mine(i, s.recipient) then s.minOut else 0
  {
    HalfRange();
    hide Pow;
  }

  lemma {:induction false} SwapTallied(i: Intent, c: Cmd)
    requires (c.SwapV3? || c.SwapV2?) && Readable(c)
    ensures var r := Contribution(i, ToCommand(c)); if Approved(i, c) then r.Ok? && Tallied(i, c, r.value) else r.Err?
  {
    hide BigEndian, Pow;
    SwapIs(i, ToCommand(c));
    hide SwapPull, SwapPays, SwapOk, Mine;
  }

  lemma {:induction false} BatchTallied(i: Intent, acts: seq<Act>)
    requires AllReadable(acts)
    ensures var r := Contribution(i, V4(ToActions(acts)));
            if Approved(i, Batch(acts)) then r.Ok? && Tallied(i, Batch(acts), r.value) else r.Err?
  {
    BatchChecked(i, acts);
    NativeIs(i.sellToken, i.sellToken);
    hide CheckBatch, BatchOk, BatchIn, BatchOut, IsNative, NativeLike, ToActions;
  }

  lemma {:induction false} CmdTallied(i: Intent, c: Cmd)
    requires Readable(c)
    ensures var r := Contribution(i, ToCommand(c)); if Approved(i, c) then r.Ok? && Tallied(i, c, r.value) else r.Err?
  {
    if c.Batch? {
      BatchTallied(i, c.acts);
    } else if c.SwapV3? || c.SwapV2? {
      SwapTallied(i, c);
    }
    hide CheckBatch, BatchOk, BatchIn, BatchOut, ToActions, BigEndian, SwapPull, SwapPays, SwapOk, AllReadable;
  }

  lemma {:induction false} BatchUnreadable(i: Intent, acts: seq<Act>)
    requires BatchOk(i, acts)
    ensures AllReadable(acts)
  {
    forall k | 0 <= k < |acts|
      ensures ActReadable(acts[k])
    {
      if k < |acts| - 2 {
        assert SwapActOk(i, acts[k]);
      }
    }
  }

  lemma {:induction false} UnreadableRefused(i: Intent, c: Cmd)
    requires Approved(i, c)
    ensures Readable(c)
  {
    hide BatchOk, AllReadable, SwapOk;
    if c.Batch? {
      BatchUnreadable(i, c.acts);
    }
  }

  /** The checker on one encoded command. */
  lemma {:induction false} CmdChecked(i: Intent, c: Cmd, input: bytes)
    requires CmdInput(c) == Ok(input)
    ensures var r := CheckOne(i, CmdCode(c), input); if Approved(i, c) then r.Ok? && Tallied(i, c, r.value) else r.Err?
  {
    hide CmdInput, CmdCode, ReadCommand, Contribution, Approved, Readable, ToCommand, Tallied;
    CmdRead(c, input);
    if Readable(c) {
      CmdTallied(i, c);
    } else if Approved(i, c) {
      UnreadableRefused(i, c);
    }
  }

  // ----- the verdict on a call -----

  predicate AllTallied(i: Intent, cmds: seq<Cmd>, t: Tally) {
    && t.userIn == Sum(cmds, PulledBy(i)) && t.wrapped + t.v4Native == Sum(cmds, PaidBy(i))
    && t.delivered == Sum(cmds, Guaranteed(i))
  }

  lemma {:induction false} CmdsChecked(i: Intent, cmds: seq<Cmd>, inputs: seq<bytes>)
    requires CmdInputs(cmds) == Ok(inputs)
    ensures var r := CheckCommands(i, CmdCodes(cmds), inputs);
            if AllApproved(i, cmds) then r.Ok? && AllTallied(i, cmds, r.value) else r.Err?
    decreases |cmds|
  {
    hide CmdInput, CheckOne, Approved, CmdCode, PulledBy, PaidBy, Guaranteed;
    if cmds != [] {
      var n := |cmds| - 1;
      var before := CmdInputs(cmds[..n]).value;
      CmdsChecked(i, cmds[..n], before);
      CmdChecked(i, cmds[n], inputs[n]);
      assert inputs[..n] == before && CmdCodes(cmds)[..n] == CmdCodes(cmds[..n]);
      assert AllApproved(i, cmds) <==> AllApproved(i, cmds[..n]) && Approved(i, cmds[n]);
    }
  }

  lemma {:induction false} CallDecoded(cmds: seq<Cmd>, deadline: Option<nat>, args: bytes)
    requires CallData(cmds, deadline) == Ok(args)
    ensures CmdInputs(cmds).Ok? && DecodeExecute(deadline.Some?, args) == Ok((CmdCodes(cmds), CmdInputs(cmds).value))
  {
    hide EncodeArgs, DecodeArgs, CmdInputs, CmdCodes;
    var inputs := CmdInputs(cmds).value;
    var two := [VBytes(CmdCodes(cmds)), VList(BytesItems(inputs))];
    var vals := match deadline case None => two case Some(d) => two + [VInt(d)];
    var types := RouterTypes(deadline.Some?);
    CallTypes(deadline.Some?);
    assert EncodeArgs(types, vals) == Ok(args);
    RoundTrip(types, vals, []);
    assert args + [] == args && vals[0] == two[0] && vals[1] == two[1];
    assert RawItems(BytesItems(inputs)) == inputs;
  }

  lemma CallTypes(deadline: bool)
    ensures var types := RouterTypes(deadline);
            && types == (if deadline then [Base(DynBytes), Array(None, Base(DynBytes)), Base(UInt(256))]
                         else [Base(DynBytes), Array(None, Base(DynBytes))])
            && Aligned(types) && forall k :: 0 <= k < |types| ==> ValidType(types[k]) && Supported(types[k])
  {
    var types := RouterTypes(deadline);
    assert forall k :: 0 <= k < |types| ==> HeadWords(types[k]) == 1 || IsDynamic(types[k]);
  }

  /** The checker accepts an encoded call exactly when every command is approved, the commands spend
      exactly the sell amount, and what they guarantee is at least the minimum; and it answers with
      what they guarantee together. */
  lemma {:induction false} AcceptedExactly(i: Intent, cmds: seq<Cmd>, deadline: Option<nat>, args: bytes, out: nat)
    requires CallData(cmds, deadline) == Ok(args)
    ensures CheckExecute(i, deadline.Some?, args) == Ok(out) <==>
            && cmds != [] && AllApproved(i, cmds) && SpendsSell(i, cmds)
            && out == Sum(cmds, Guaranteed(i)) && out >= i.minBuy
  {
    hide CallData, DecodeExecute, CheckCommands, AllApproved, Sum, CmdInputs, CmdCode, PulledBy, PaidBy, Guaranteed;
    CallDecoded(cmds, deadline, args);
    ExecuteOf(i, deadline.Some?, args);
    CmdsChecked(i, cmds, CmdInputs(cmds).value);
    NativeIs(i.sellToken, i.sellToken);
    hide IsNative, NativeLike;
  }

  // ----- calls that are accepted -----

  /** A v3 swap, wrap, unwrap or sweep whose fields are in range, with a path of at most 2048 bytes. */
  predicate Plain(c: Cmd) {
    match c
    case SwapV3(rcpt, a, m, packed, _) => IsAddress(rcpt) && a < WordRange() && m < WordRange() && |packed| <= 2048
    case WrapEth(rcpt, a) => IsAddress(rcpt) && a < WordRange()
    case UnwrapWeth(rcpt, least) => IsAddress(rcpt) && least < WordRange()
    case SweepOut(tok, rcpt, least) => IsAddress(tok) && IsAddress(rcpt) && least < WordRange()
    case _ => false
  }

  lemma {:induction false} StaticFits(types: seq<AbiType>, vals: seq<Val>)
    requires |types| == |vals| <= 4 && AllStatic(types) && AllFit(types, vals)
    ensures EncodeArgs(types, vals).Ok? && |EncodeArgs(types, vals).value| <= 4096
  {
    hide EncodeArgs, AllFit, Tuple, AllStatic;
    TupleFits(types, vals);
    TupleIsArgs(types, vals);
    TupleLength(types, vals);
  }

  lemma WordFits(n: nat)
    requires n < WordRange()
    ensures Fits(Base(UInt(256)), VInt(n))
  {
    WordBits();
    hide Pow;
  }

  lemma AddrFits(n: nat)
    ensures Fits(Base(Address), Addr(n))
  {}

  lemma {:induction false} SwapFields(rcpt: nat, a: nat, m: nat, packed: bytes, user: bool)
    requires a < WordRange() && m < WordRange() && |packed| <= 2048
    ensures var types := [Base(Address), Base(UInt(256)), Base(UInt(256)), Base(DynBytes), Base(Bool)];
            AllBase(types) && AllFit(types, [Addr(rcpt), VInt(a), VInt(m), VBytes(packed), VBool(user)])
  {
    var types := [Base(Address), Base(UInt(256)), Base(UInt(256)), Base(DynBytes), Base(Bool)];
    var vals := [Addr(rcpt), VInt(a), VInt(m), VBytes(packed), VBool(user)];
    AddrFits(rcpt);
    WordFits(a);
    WordFits(m);
    SmallWord(|packed|);
    assert Fits(types[3], vals[3]) && Fits(types[4], vals[4]);
    hide Fits, WordRange, Word, Addr;
  }

  lemma {:induction false} SwapFits(rcpt: nat, a: nat, m: nat, packed: bytes, user: bool)
    requires IsAddress(rcpt) && a < WordRange() && m < WordRange() && |packed| <= 2048
    ensures var e := SwapInput(Base(DynBytes), rcpt, a, m, VBytes(packed), user); e.Ok? && |e.value| <= 4096
  {
    hide AllBase, AllFit, Struct, EncodeArgs, WordRange, Addr, IsAddress;
    var types := [Base(Address), Base(UInt(256)), Base(UInt(256)), Base(DynBytes), Base(Bool)];
    var vals := [Addr(rcpt), VInt(a), VInt(m), VBytes(packed), VBool(user)];
    SwapFields(rcpt, a, m, packed, user);
    assert |types| == |vals| && types[3] == BYTES && vals[3].VBytes?;
    assert forall i :: 0 <= i < |types| ==> (IsDynamic(types[i]) <==> i == 3);
    StructWithBytes(types, vals, 3);
    StructIsArgs(types, vals);
    StructLength(types, vals, 3);
  }

  lemma {:induction false} PlainFits(c: Cmd)
    requires Plain(c)
    ensures CmdInput(c).Ok? && |CmdInput(c).value| <= 4096
  {
    hide EncodeArgs, Fits, Addr, IsAddress, WordRange, SwapInput;
    match c
    case SwapV3(rcpt, a, m, packed, user) => SwapFits(rcpt, a, m, packed, user);
    case WrapEth(rcpt, n) =>
      AddrFits(rcpt);
      WordFits(n);
      StaticFits([Base(Address), Base(UInt(256))], [Addr(rcpt), VInt(n)]);
    case UnwrapWeth(rcpt, n) =>
      AddrFits(rcpt);
      WordFits(n);
      StaticFits([Base(Address), Base(UInt(256))], [Addr(rcpt), VInt(n)]);
    case SweepOut(tok, rcpt, n) =>
      AddrFits(tok);
      AddrFits(rcpt);
      WordFits(n);
      StaticFits([Base(Address), Base(Address), Base(UInt(256))], [Addr(tok), Addr(rcpt), VInt(n)]);
  }

  lemma {:induction false} InputsFit(cmds: seq<Cmd>)
    requires |cmds| <= 3 && forall k :: 0 <= k < |cmds| ==> Plain(cmds[k])
    ensures CmdInputs(cmds).Ok? && FewSmall(CmdInputs(cmds).value)
    decreases |cmds|
  {
    hide CmdInput, Plain;
    if cmds != [] {
      var n := |cmds| - 1;
      InputsFit(cmds[..n]);
      PlainFits(cmds[n]);
    }
  }

  /** Up to three such commands have call data. */
  lemma {:induction false} PlainCall(cmds: seq<Cmd>)
    requires |cmds| <= 3 && forall k :: 0 <= k < |cmds| ==> Plain(cmds[k])
    ensures CallData(cmds, None).Ok?
  {
    hide CmdInputs, EncodeArgs, EncodePlan, FewSmall, CmdCodes, Plain;
    InputsFit(cmds);
    PlanFits(CmdCodes(cmds), CmdInputs(cmds).value);
    PlanIsArgs(CmdCodes(cmds), CmdInputs(cmds).value);
  }

  /** A v3 path over one pool. */
  function OnePool(first: nat, fee: nat, last: nat): bytes { ToBytes(first, 20) + ToBytes(fee, 3) + ToBytes(last, 20) }

  lemma {:induction false} OnePoolTokens(first: nat, fee: nat, last: nat)
    requires IsAddress(first) && IsAddress(last)
    ensures var p := OnePool(first, fee, last);
            |p| == 43 && BigEndian(p[..20]) == first && BigEndian(p[|p| - 20..]) == last
  {
    var p := OnePool(first, fee, last);
    AddrWord(first);
    AddrWord(last);
    hide ToBytes, BigEndian;
    assert p[..20] == ToBytes(first, 20) && p[23..] == ToBytes(last, 20);
  }

  /** Amounts and addresses that have an encoding. */
  predicate Encodable(i: Intent, weth: nat, min: nat) {
    && IsAddress(i.wallet) && IsAddress(i.sellToken) && IsAddress(i.buyToken) && IsAddress(weth)
    && i.sellAmount < WordRange() && min < WordRange()
  }

  lemma {:induction false} OneSum(c: Cmd, f: Cmd -> nat)
    ensures Sum([c], f) == f(c)
  {
    assert [c][..0] == [] && Sum([], f) == 0;
  }

  lemma {:induction false} TwoSums(c: Cmd, d: Cmd, f: Cmd -> nat)
    ensures Sum([c, d], f) == f(c) + f(d)
  {
    assert [c, d][..1] == [c];
    OneSum(c, f);
  }

  lemma {:induction false} OneCall(i: Intent, c: Cmd, out: nat) returns (args: bytes)
    requires Plain(c) && Approved(i, c) && !NativeLike(i.sellToken) && PulledBy(i)(c) == i.sellAmount
    requires out == Guaranteed(i)(c) && out >= i.minBuy
    ensures CallData([c], None) == Ok(args) && CheckExecute(i, false, args) == Ok(out)
  {
    hide CallData, CheckExecute, Plain, Approved, Sum, NativeLike;
    OneSum(c, PulledBy(i));
    OneSum(c, Guaranteed(i));
    PlainCall([c]);
    args := CallData([c], None).value;
    AcceptedExactly(i, [c], None, args, out);
  }

  lemma {:induction false} TwoCalls(i: Intent, c: Cmd, d: Cmd, out: nat) returns (args: bytes)
    requires Plain(c) && Plain(d) && Approved(i, c) && Approved(i, d) && out == Guaranteed(i)(c) + Guaranteed(i)(d) >= i.minBuy
    requires if NativeLike(i.sellToken) then PaidBy(i)(c) + PaidBy(i)(d) == i.sellAmount == i.value
             else PulledBy(i)(c) + PulledBy(i)(d) == i.sellAmount
    ensures CallData([c, d], None) == Ok(args) && CheckExecute(i, false, args) == Ok(out)
  {
    hide CallData, CheckExecute, Plain, Approved, Sum, NativeLike;
    TwoSums(c, d, PulledBy(i));
    TwoSums(c, d, PaidBy(i));
    TwoSums(c, d, Guaranteed(i));
    PlainCall([c, d]);
    args := CallData([c, d], None).value;
    AcceptedExactly(i, [c, d], None, args, out);
  }

  /** A token for another in one v3 pool: command 0x00. */
  lemma {:induction false} SwapAccepted(i: Intent, fee: nat, min: nat) returns (args: bytes)
    requires Encodable(i, 0, min) && !NativeLike(i.sellToken) && !NativeLike(i.buyToken)
    requires i.sellAmount != Pow(2, 255) && min >= i.minBuy
    ensures CallData([SwapV3(1, i.sellAmount, min, OnePool(i.sellToken, fee, i.buyToken), true)], None) == Ok(args)
    ensures CheckExecute(i, false, args) == Ok(min)
  {
    SmallAddresses();
    OnePoolTokens(i.sellToken, fee, i.buyToken);
    hide CallData, CheckExecute, Pow, OnePool, BigEndian;
    args := OneCall(i, SwapV3(1, i.sellAmount, min, OnePool(i.sellToken, fee, i.buyToken), true), min);
  }

  lemma {:induction false} SmallAddresses()
    ensures IsAddress(0) && IsAddress(1) && IsAddress(2)
  {
    CallMeaning.AddressRange();
    hide Pow;
  }

  /** The native currency for a token: wrap the value, then swap what the router holds. */
  lemma {:induction false} WrapThenSwap(i: Intent, weth: nat, fee: nat, min: nat) returns (args: bytes)
    requires Encodable(i, weth, min) && NativeLike(i.sellToken) && !NativeLike(i.buyToken)
    requires i.value == i.sellAmount && min >= i.minBuy
    ensures CallData([WrapEth(2, i.sellAmount), SwapV3(1, i.sellAmount, min, OnePool(weth, fee, i.buyToken), false)], None) == Ok(args)
    ensures CheckExecute(i, false, args) == Ok(min)
  {
    SmallAddresses();
    OnePoolTokens(weth, fee, i.buyToken);
    hide CallData, CheckExecute, Pow, OnePool, BigEndian;
    args := TwoCalls(i, WrapEth(2, i.sellAmount), SwapV3(1, i.sellAmount, min, OnePool(weth, fee, i.buyToken), false), min);
  }

  /** A token for the native currency: swap into the router, then unwrap to the wallet. */
  lemma {:induction false} SwapThenUnwrap(i: Intent, weth: nat, fee: nat, min: nat) returns (args: bytes)
    requires Encodable(i, weth, min) && !NativeLike(i.sellToken) && NativeLike(i.buyToken)
    requires i.sellAmount != Pow(2, 255) && i.wallet != 2 && min >= i.minBuy
    ensures CallData([SwapV3(2, i.sellAmount, 0, OnePool(i.sellToken, fee, weth), true), UnwrapWeth(1, min)], None) == Ok(args)
    ensures CheckExecute(i, false, args) == Ok(min)
  {
    SmallAddresses();
    OnePoolTokens(i.sellToken, fee, weth);
    hide CallData, CheckExecute, Pow, OnePool, BigEndian;
    args := TwoCalls(i, SwapV3(2, i.sellAmount, 0, OnePool(i.sellToken, fee, weth), true), UnwrapWeth(1, min), min);
  }

  /** A token for another: swap into the router, then sweep the bought token to the wallet. */
  lemma {:induction false} SwapThenSweep(i: Intent, fee: nat, min: nat) returns (args: bytes)
    requires Encodable(i, 0, min) && !NativeLike(i.sellToken) && !NativeLike(i.buyToken)
    requires i.sellAmount != Pow(2, 255) && i.wallet != 2 && min >= i.minBuy
    ensures CallData([SwapV3(2, i.sellAmount, 0, OnePool(i.sellToken, fee, i.buyToken), true),
                      SweepOut(i.buyToken, i.wallet, min)], None) == Ok(args)
    ensures CheckExecute(i, false, args) == Ok(min)
  {
    SmallAddresses();
    OnePoolTokens(i.sellToken, fee, i.buyToken);
    hide CallData, CheckExecute, Pow, OnePool, BigEndian;
    args := TwoCalls(i, SwapV3(2, i.sellAmount, 0, OnePool(i.sellToken, fee, i.buyToken), true),
                     SweepOut(i.buyToken, i.wallet, min), min);
  }
}
