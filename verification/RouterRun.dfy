/** What the Universal Router may do with a command list, and why the checker's verdict holds in
    every run that does not revert. Swap amounts are nondeterministic. */
module RouterRun {
  import opened Wrappers
  import opened Bytes
  import opened UniversalRouter
  import opened CallMeaning

  datatype Asset = Native | Token(address: nat)

  type Ledger = Asset -> int

  datatype World = World(wallet: Ledger, router: Ledger)

  datatype Party = Wallet | Router | Elsewhere

  /** Who an on-chain recipient is: 1 is the caller, 2 the router itself. */
  function PartyOf(wallet: nat, recipient: nat): Party {
    if recipient == MSG_SENDER then Wallet
    else if recipient == ADDRESS_THIS then Router
    else if recipient == wallet then Wallet
    else Elsewhere
  }

  function Payer(byUser: bool): Party { if byUser then Wallet else Router }

  function AssetOf(currency: nat): Asset { if currency == 0 then Native else Token(currency) }

  /** `after` is `before` with `d` more of one asset. */
  ghost predicate Moved(before: Ledger, after: Ledger, a: Asset, d: int) {
    forall b :: after(b) == before(b) + if a == b then d else 0
  }

  ghost predicate Unmoved(before: Ledger, after: Ledger) {
    forall b :: after(b) == before(b)
  }

  ghost predicate Credited(w: World, w': World, p: Party, a: Asset, d: int) {
    && (if p == Wallet then Moved(w.wallet, w'.wallet, a, d) else Unmoved(w.wallet, w'.wallet))
    && (if p == Router then Moved(w.router, w'.router, a, d) else Unmoved(w.router, w'.router))
  }

  /** `x` of `a` leaves `from`, then `y` of `b` reaches `to`. The router pays only what it has. */
  ghost predicate Exchanged(w: World, w': World, from: Party, a: Asset, x: nat, to: Party, b: Asset, y: nat) {
    && (from == Router ==> x <= w.router(a))
    && exists m: World :: Credited(w, m, from, a, -(x as int)) && Credited(m, w', to, b, y)
  }

  // ----- V4 batches -----

  /** The router's open debts (negative) and credits with the pool manager. */
  type Deltas = Asset -> int

  datatype Batch = Batch(world: World, deltas: Deltas)

  /** No token contract stands at the sentinel, so no amount of it moves. */
  predicate Movable(currency: nat, amount: nat) { currency == NATIVE_SENTINEL ==> amount == 0 }

  /** A settle pays `x`: native from the router's balance, tokens from the user or the router. */
  ghost predicate Settled(s: Batch, s': Batch, currency: nat, x: nat, byUser: bool) {
    var a := AssetOf(currency);
    var payer := Payer(byUser && a.Token?);
    && Credited(s.world, s'.world, payer, a, -(x as int))
    && (payer == Router ==> x <= s.world.router(a))
    && Moved(s.deltas, s'.deltas, a, x)
  }

  ghost predicate Taken(s: Batch, s': Batch, currency: nat, x: nat, to: Party) {
    var a := AssetOf(currency);
    && Credited(s.world, s'.world, to, a, x)
    && Moved(s.deltas, s'.deltas, a, -(x as int))
  }

  /** One exact-input swap: at most its input becomes debt, at least its minimum becomes credit. */
  ghost predicate Swapped(s: Batch, s': Batch, a: Action)
    requires a.Swap4?
  {
    exists x: nat, y: nat, m: Deltas ::
      && (a.amountIn != OPEN_DELTA ==> x <= a.amountIn)
      && (a.amountIn == OPEN_DELTA ==> x == s.deltas(AssetOf(a.currencyIn)))
      && y >= a.minOut && Movable(a.currencyIn, x) && Movable(a.currencyOut, y)
      && Moved(s.deltas, m, AssetOf(a.currencyIn), -(x as int)) && Moved(m, s'.deltas, AssetOf(a.currencyOut), y)
      && s'.world == s.world
  }

  ghost predicate Acted(wallet: nat, a: Action, s: Batch, s': Batch) {
    match a
    case Swap4(_, _, _, _) => Swapped(s, s', a)
    case Settle(cur, amt, byUser) =>
      exists x: nat ::
        && (amt == OPEN_DELTA ==> x == -s.deltas(AssetOf(cur)))
        && (amt != OPEN_DELTA && amt != CONTRACT_BALANCE ==> x == amt)
        && Settled(s, s', cur, x, byUser)
    case SettleAll(cur, most) =>
      exists x: nat :: x == -s.deltas(AssetOf(cur)) && x <= most && Settled(s, s', cur, x, true)
    case Take(cur, rcpt, amt) =>
      exists x: nat ::
        && x == (if amt == OPEN_DELTA then s.deltas(AssetOf(cur)) else amt)
        && Taken(s, s', cur, x, PartyOf(wallet, rcpt))
    case TakeAll(cur, least) =>
      exists x: nat :: x == s.deltas(AssetOf(cur)) && x >= least && Taken(s, s', cur, x, Wallet)
  }

  ghost predicate ActedAll(wallet: nat, actions: seq<Action>, ss: seq<Batch>) {
    && |ss| == |actions| + 1
    && forall k :: 0 <= k < |actions| ==> Acted(wallet, actions[k], ss[k], ss[k + 1])
  }

  ghost predicate NoDeltas(d: Deltas) { forall a :: d(a) == 0 }

  /** A batch opens and closes with nothing owed either way. */
  ghost predicate BatchRuns(wallet: nat, actions: seq<Action>, ss: seq<Batch>) {
    && ActedAll(wallet, actions, ss)
    && NoDeltas(ss[0].deltas) && NoDeltas(ss[|actions|].deltas)
  }

  // ----- commands -----

  /** The chain the call runs on: who calls, and which token wraps the native currency. */
  datatype Chain = Chain(wallet: nat, weth: nat)

  ghost predicate Steps(ch: Chain, c: Command, w: World, w': World) {
    match c
    case Wrap(rcpt, amount) =>
      exists x: nat ::
        && (amount != CONTRACT_BALANCE ==> x == amount)
        && Exchanged(w, w', Router, Native, x, PartyOf(ch.wallet, rcpt), Token(ch.weth), x)
    case Swap(rcpt, amountIn, minOut, tokenIn, tokenOut, byUser) =>
      exists x: nat, y: nat ::
        && (amountIn != CONTRACT_BALANCE ==> x <= amountIn) && y >= minOut
        && Exchanged(w, w', Payer(byUser), Token(tokenIn), x, PartyOf(ch.wallet, rcpt), Token(tokenOut), y)
    case V4(actions) =>
      exists ss: seq<Batch> ::
        BatchRuns(ch.wallet, actions, ss) && ss[0].world == w && ss[|actions|].world == w'
    case Sweep(token, rcpt, least) =>
      exists x: nat ::
        && x == w.router(AssetOf(token)) && x >= least
        && Exchanged(w, w', Router, AssetOf(token), x, PartyOf(ch.wallet, rcpt), AssetOf(token), x)
    case Unwrap(rcpt, least) =>
      exists x: nat ::
        && x == w.router(Token(ch.weth)) && x >= least
        && Exchanged(w, w', Router, Token(ch.weth), x, PartyOf(ch.wallet, rcpt), Native, x)
  }

  ghost predicate Runs(ch: Chain, commands: seq<Command>, ws: seq<World>) {
    && |ws| == |commands| + 1
    && forall k :: 0 <= k < |commands| ==> Steps(ch, commands[k], ws[k], ws[k + 1])
  }

  /** The whole call: the value moves to the router, then the commands run. */
  ghost predicate Executes(ch: Chain, value: nat, commands: seq<Command>, before: World, ws: seq<World>) {
    && Runs(ch, commands, ws)
    && Exchanged(before, ws[0], Wallet, Native, value, Router, Native, value)
  }

  // ----- one batch -----

  /** The asset an intent's token is. */
  function Leg(token: nat): Asset { if IsNative(token) then Native else Token(token) }

  /** The deltas an approved batch may leave open before its settle and take: a debt of at most the
      inputs in the sell token, a credit of at least the minimums in the bought one, nothing else. */
  ghost predicate Bounded(i: Intent, d: Deltas, total: nat, least: nat) {
    && (forall a :: d(a) >= (if a == Leg(i.buyToken) then least else 0) - (if a == Leg(i.sellToken) then total else 0))
    && forall a :: a != Leg(i.sellToken) && a != Leg(i.buyToken) ==> d(a) == 0
  }

  lemma SwapBounded(i: Intent, a: Action, s: Batch, s': Batch, total: nat, least: nat)
    requires SwapApproved(i, a) && Swapped(s, s', a) && Bounded(i, s.deltas, total, least)
    ensures Bounded(i, s'.deltas, total + a.amountIn, least + a.minOut) && s'.world == s.world
  {
    var x: nat, y: nat, m: Deltas :|
      && (a.amountIn != OPEN_DELTA ==> x <= a.amountIn)
      && y >= a.minOut && Movable(a.currencyIn, x) && Movable(a.currencyOut, y)
      && Moved(s.deltas, m, AssetOf(a.currencyIn), -(x as int)) && Moved(m, s'.deltas, AssetOf(a.currencyOut), y)
      && s'.world == s.world;
  }

  lemma {:induction false} SwapsBounded(i: Intent, actions: seq<Action>, ss: seq<Batch>, k: nat, total: nat, least: nat)
    requires ActedAll(i.wallet, actions, ss) && NoDeltas(ss[0].deltas)
    requires k <= |actions| && SwapSums(i, actions[..k]) == Ok((total, least))
    ensures Bounded(i, ss[k].deltas, total, least) && ss[k].world == ss[0].world
  {
    hide SwapApproved, Swapped, SameToken;
    if k > 0 {
      var before, a := actions[..k - 1], actions[k - 1];
      assert actions[..k][..k - 1] == before && actions[..k][k - 1] == a;
      var sums := SwapSums(i, before).value;
      SwapsBounded(i, actions, ss, k - 1, sums.0, sums.1);
      SwapFields(i, a);
      assert Acted(i.wallet, a, ss[k - 1], ss[k]);
      hide Bounded;
      SwapBounded(i, a, ss[k - 1], ss[k], sums.0, sums.1);
    }
  }

  /** What the wallet keeps: at most `paid` of the sell token less, at least `got` of the bought one more. */
  ghost predicate Safe(i: Intent, before: Ledger, after: Ledger, paid: nat, got: nat) {
    forall a :: after(a) >= before(a) - (if a == Leg(i.sellToken) then paid else 0) + (if a == Leg(i.buyToken) then got else 0)
  }

  /** The asset a settle or a take names, when the checker compared it with `token`. */
  predicate Names(a: Asset, token: nat) {
    a == Leg(token) || (IsNative(token) && a == Token(NATIVE_SENTINEL))
  }

  /** A settle moves `x` of an asset the sell token names; only tokens come from the wallet. */
  ghost predicate SettleEffect(i: Intent, s: Batch, s': Batch, a: Asset, x: nat) {
    && Names(a, i.sellToken) && Moved(s.deltas, s'.deltas, a, x)
    && (if a.Token? && !Unmoved(s.world.wallet, s'.world.wallet)
        then Moved(s.world.wallet, s'.world.wallet, a, -(x as int)) else Unmoved(s.world.wallet, s'.world.wallet))
  }

  /** A settle pays the whole debt or the sum of the inputs; an amount that stands for the router's
      balance is approved only as that sum. */
  predicate Payable(s: Batch, a: Asset, x: nat, total: nat) { x == -s.deltas(a) || x <= total || total >= CONTRACT_BALANCE }

  lemma SettledParts(s: Batch, s': Batch, currency: nat, x: nat, byUser: bool)
    requires Settled(s, s', currency, x, byUser)
    ensures Moved(s.deltas, s'.deltas, AssetOf(currency), x)
  {}

  lemma SettleMoves(i: Intent, e: Action, s: Batch, s': Batch, total: nat, least: nat) returns (a: Asset, x: nat)
    requires IsSettle(e) && EndApproved(i, total, least, e).Ok? && Acted(i.wallet, e, s, s')
    ensures SettleEffect(i, s, s', a, x) && Payable(s, a, x, total) && EndApproved(i, total, least, e) == Ok(least)
  {
    a := AssetOf(e.currency);
    match e
    case Settle(cur, amt, byUser) =>
      x :| && (amt == OPEN_DELTA ==> x == -s.deltas(AssetOf(cur)))
           && (amt != OPEN_DELTA && amt != CONTRACT_BALANCE ==> x == amt)
           && Settled(s, s', cur, x, byUser);
      SettledParts(s, s', cur, x, byUser);
    case SettleAll(cur, most) =>
      x :| x == -s.deltas(AssetOf(cur)) && Settled(s, s', cur, x, true);
      SettledParts(s, s', cur, x, true);
  }

  /** A take pays the wallet the whole credit in an asset the buy token names. */
  ghost predicate TakeEffect(i: Intent, s: Batch, s': Batch, a: Asset, x: nat) {
    && Names(a, i.buyToken) && x == s.deltas(a)
    && Moved(s.deltas, s'.deltas, a, -(x as int)) && Moved(s.world.wallet, s'.world.wallet, a, x)
  }

  lemma TakenParts(s: Batch, s': Batch, currency: nat, x: nat, to: Party)
    requires Taken(s, s', currency, x, to)
    ensures Moved(s.deltas, s'.deltas, AssetOf(currency), -(x as int))
    ensures to == Wallet ==> Moved(s.world.wallet, s'.world.wallet, AssetOf(currency), x)
  {}

  lemma TakeMoves(i: Intent, e: Action, s: Batch, s': Batch, total: nat, least: nat, out: nat) returns (a: Asset, x: nat)
    requires i.wallet != ADDRESS_THIS
    requires IsTake(e) && EndApproved(i, total, least, e) == Ok(out) && Acted(i.wallet, e, s, s')
    ensures TakeEffect(i, s, s', a, x) && least <= out && (out == least || out <= x)
  {
    a := AssetOf(e.currency);
    match e
    case Take(cur, rcpt, amt) =>
      x :| x == s.deltas(AssetOf(cur)) && Taken(s, s', cur, x, PartyOf(i.wallet, rcpt));
      TakenParts(s, s', cur, x, PartyOf(i.wallet, rcpt));
    case TakeAll(cur, min) =>
      x :| x == s.deltas(AssetOf(cur)) && x >= min && Taken(s, s', cur, x, Wallet);
      TakenParts(s, s', cur, x, Wallet);
  }

  lemma SettleThenTake(i: Intent, s: Batch, m: Batch, e: Batch, a: Asset, x: nat, b: Asset, y: nat, total: nat,
                       least: nat, out: nat)
    requires !SameToken(i.sellToken, i.buyToken) && Bounded(i, s.deltas, total, least)
    requires SettleEffect(i, s, m, a, x) && TakeEffect(i, m, e, b, y) && NoDeltas(e.deltas)
    requires least <= out && (out == least || out <= y)
    ensures Safe(i, s.world.wallet, e.world.wallet, if Leg(i.sellToken).Token? then total else 0, out)
  {
    var sell, buy := Leg(i.sellToken), Leg(i.buyToken);
    assert sell != buy && a != b;
    assert e.deltas(a) == s.deltas(a) + x;
    assert e.deltas(b) == s.deltas(b) - y;
    assert e.deltas(buy) == s.deltas(buy) - if b == buy then y else 0;
  }

  lemma TakeThenSettle(i: Intent, s: Batch, m: Batch, e: Batch, a: Asset, x: nat, b: Asset, y: nat, total: nat,
                       least: nat, out: nat)
    requires !SameToken(i.sellToken, i.buyToken) && Bounded(i, s.deltas, total, least)
    requires TakeEffect(i, s, m, b, y) && SettleEffect(i, m, e, a, x) && NoDeltas(e.deltas)
    requires least <= out && (out == least || out <= y)
    ensures Safe(i, s.world.wallet, e.world.wallet, if Leg(i.sellToken).Token? then total else 0, out)
  {
    var sell, buy := Leg(i.sellToken), Leg(i.buyToken);
    assert sell != buy && a != b;
    assert e.deltas(a) == s.deltas(a) + x;
    assert e.deltas(b) == s.deltas(b) - y;
    assert e.deltas(buy) == s.deltas(buy) - if b == buy then y else 0;
  }

  /** With one token on both sides the two amounts offset each other. */
  lemma SameSettleThenTake(i: Intent, s: Batch, m: Batch, e: Batch, a: Asset, x: nat, b: Asset, y: nat,
                           total: nat, least: nat, out: nat)
    requires SameToken(i.sellToken, i.buyToken) && !IsNative(i.sellToken) && total < CONTRACT_BALANCE
    requires Bounded(i, s.deltas, total, least) && Payable(s, a, x, total)
    requires SettleEffect(i, s, m, a, x) && TakeEffect(i, m, e, b, y) && NoDeltas(e.deltas)
    requires least <= out && (out == least || out <= y)
    ensures Safe(i, s.world.wallet, e.world.wallet, total, out)
  {
    var leg := Leg(i.sellToken);
    assert leg == Leg(i.buyToken) == a == b;
    assert s.deltas(leg) >= least - total;
    assert m.deltas(leg) == s.deltas(leg) + x && y == m.deltas(leg);
  }

  lemma SameTakeThenSettle(i: Intent, s: Batch, m: Batch, e: Batch, a: Asset, x: nat, b: Asset, y: nat,
                           total: nat, least: nat, out: nat)
    requires SameToken(i.sellToken, i.buyToken) && !IsNative(i.sellToken)
    requires Bounded(i, s.deltas, total, least)
    requires TakeEffect(i, s, m, b, y) && SettleEffect(i, m, e, a, x) && NoDeltas(e.deltas)
    requires least <= out && (out == least || out <= y)
    ensures Safe(i, s.world.wallet, e.world.wallet, total, out)
  {
    var leg := Leg(i.sellToken);
    assert leg == Leg(i.buyToken) == a == b;
    assert s.deltas(leg) >= least - total;
    assert e.deltas(leg) == m.deltas(leg) + x && m.deltas(leg) == s.deltas(leg) - y;
  }

  lemma {:induction false} TwoEnds(i: Intent, total: nat, least: nat, ends: seq<Action>, out: nat)
    requires |ends| == 2 && Ends(i, total, least, ends) == Ok(out)
    ensures var m := EndApproved(i, total, least, ends[0]);
            m.Ok? && EndApproved(i, total, m.value, ends[1]) == Ok(out)
  {
    hide EndApproved;
    var first := ends[..1];
    assert first[..0] == [] && first[0] == ends[0];
    assert Ends(i, total, least, []) == Ok(least);
    assert Ends(i, total, least, first) == EndApproved(i, total, least, ends[0]);
  }

  /** A batch is bounded when the tokens differ, or are one token contract with an input below the
      amount that stands for the router's balance. */
  predicate Settleable(i: Intent, total: nat) {
    SameToken(i.sellToken, i.buyToken) ==> !IsNative(i.sellToken) && total < CONTRACT_BALANCE
  }

  /** Every run of an approved batch pays the wallet what was promised and takes no more than approved. */
  lemma BatchSafe(i: Intent, actions: seq<Action>, ss: seq<Batch>, total: nat, out: nat)
    requires Settleable(i, total) && i.wallet != ADDRESS_THIS
    requires CheckBatch(i, actions) == Ok((total, out)) && BatchRuns(i.wallet, actions, ss)
    ensures Safe(i, ss[0].world.wallet, ss[|actions|].world.wallet, if Leg(i.sellToken).Token? then total else 0, out)
  {
    var n := |actions| - 2;
    var sums := SwapSums(i, actions[..n]).value;
    var least := sums.1;
    var e1, e2, s, m, e := actions[n], actions[n + 1], ss[n], ss[n + 1], ss[n + 2];
    assert actions[n..][0] == e1 && actions[n..][1] == e2;
    assert Acted(i.wallet, e1, s, m) && Acted(i.wallet, e2, m, e);
    hide SwapSums, Acted, EndApproved, Bounded, Ends, SettleEffect, TakeEffect, SameToken, Safe, NoDeltas, Payable;
    SwapsBounded(i, actions, ss, n, total, least);
    TwoEnds(i, total, least, actions[n..], out);
    if IsSettle(e1) {
      var a, x := SettleMoves(i, e1, s, m, total, least);
      var b, y := TakeMoves(i, e2, m, e, total, least, out);
      if SameToken(i.sellToken, i.buyToken) {
        SameSettleThenTake(i, s, m, e, a, x, b, y, total, least, out);
      } else {
        SettleThenTake(i, s, m, e, a, x, b, y, total, least, out);
      }
    } else {
      var b, y := TakeMoves(i, e1, s, m, total, least, EndApproved(i, total, least, e1).value);
      var a, x := SettleMoves(i, e2, m, e, total, EndApproved(i, total, least, e1).value);
      if SameToken(i.sellToken, i.buyToken) {
        SameTakeThenSettle(i, s, m, e, a, x, b, y, total, least, out);
      } else {
        TakeThenSettle(i, s, m, e, a, x, b, y, total, least, out);
      }
    }
  }

  // ----- one command -----

  lemma ExchangeWallet(w: World, w': World, from: Party, a: Asset, x: nat, to: Party, b: Asset, y: nat)
    requires Exchanged(w, w', from, a, x, to, b, y)
    ensures forall c :: w'.wallet(c) == w.wallet(c) - (if from == Wallet && c == a then x else 0)
                                        + (if to == Wallet && c == b then y else 0)
  {
    var m: World :| Credited(w, m, from, a, -(x as int)) && Credited(m, w', to, b, y);
    forall c
      ensures w'.wallet(c) == w.wallet(c) - (if from == Wallet && c == a then x else 0)
                              + (if to == Wallet && c == b then y else 0)
    {
      assert m.wallet(c) == w.wallet(c) - if from == Wallet && c == a then x else 0;
    }
  }

  lemma SwapSafe(i: Intent, ch: Chain, c: Command, t: Tally, w: World, w': World)
    requires c.Swap? && i.wallet == ch.wallet != ADDRESS_THIS
    requires Contribution(i, c) == Ok(t) && Steps(ch, c, w, w')
    ensures Safe(i, w.wallet, w'.wallet, t.userIn, t.delivered)
  {
    hide Exchanged;
    var x: nat, y: nat :|
      && (c.amountIn != CONTRACT_BALANCE ==> x <= c.amountIn) && y >= c.minOut
      && Exchanged(w, w', Payer(c.byUser), Token(c.tokenIn), x, PartyOf(ch.wallet, c.recipient), Token(c.tokenOut), y);
    ExchangeWallet(w, w', Payer(c.byUser), Token(c.tokenIn), x, PartyOf(ch.wallet, c.recipient), Token(c.tokenOut), y);
  }

  lemma OtherSafe(i: Intent, ch: Chain, c: Command, t: Tally, w: World, w': World)
    requires !c.Swap? && !c.V4? && i.wallet == ch.wallet != ADDRESS_THIS
    requires Contribution(i, c) == Ok(t) && Steps(ch, c, w, w')
    ensures Safe(i, w.wallet, w'.wallet, t.userIn, t.delivered)
  {
    hide Exchanged;
    match c
    case Wrap(rcpt, amount) =>
      var x: nat :| Exchanged(w, w', Router, Native, x, PartyOf(ch.wallet, rcpt), Token(ch.weth), x);
      ExchangeWallet(w, w', Router, Native, x, PartyOf(ch.wallet, rcpt), Token(ch.weth), x);
    case Sweep(token, rcpt, least) =>
      var x: nat :| x >= least && Exchanged(w, w', Router, AssetOf(token), x, PartyOf(ch.wallet, rcpt), AssetOf(token), x);
      ExchangeWallet(w, w', Router, AssetOf(token), x, PartyOf(ch.wallet, rcpt), AssetOf(token), x);
    case Unwrap(rcpt, least) =>
      var x: nat :| x >= least && Exchanged(w, w', Router, Token(ch.weth), x, PartyOf(ch.wallet, rcpt), Native, x);
      ExchangeWallet(w, w', Router, Token(ch.weth), x, PartyOf(ch.wallet, rcpt), Native, x);
  }

  lemma CommandSafe(i: Intent, ch: Chain, c: Command, t: Tally, w: World, w': World)
    requires i.wallet == ch.wallet != ADDRESS_THIS && (c.V4? ==> Settleable(i, t.userIn))
    requires Contribution(i, c) == Ok(t) && Steps(ch, c, w, w')
    ensures Safe(i, w.wallet, w'.wallet, t.userIn, t.delivered)
    ensures IsNative(i.sellToken) ==> t.userIn == 0
  {
    match c
    case V4(actions) =>
      var (total, out) := CheckBatch(i, actions).value;
      var ss: seq<Batch> :| BatchRuns(ch.wallet, actions, ss) && ss[0].world == w && ss[|actions|].world == w';
      hide CheckBatch, BatchRuns;
      BatchSafe(i, actions, ss, total, out);
    case Swap(_, _, _, _, _, _) => SwapSafe(i, ch, c, t, w, w');
    case _ => OtherSafe(i, ch, c, t, w, w');
  }

  // ----- whole runs -----

  lemma SafeAdd(i: Intent, a: Ledger, b: Ledger, c: Ledger, p: nat, g: nat, q: nat, h: nat)
    requires Safe(i, a, b, p, g) && Safe(i, b, c, q, h)
    ensures Safe(i, a, c, p + q, g + h)
  {}

  /** The tokens differ; or they are one token contract, sold in an amount below the one that stands
      for the router's balance; or they are both native and no V4 batch is among the commands. */
  predicate Apart(i: Intent, codes: bytes, userIn: nat) {
    SameToken(i.sellToken, i.buyToken) ==> if IsNative(i.sellToken) then 0x10 !in codes else userIn < CONTRACT_BALANCE
  }

  lemma {:induction false} RunSafe(i: Intent, ch: Chain, codes: bytes, inputs: seq<bytes>, commands: seq<Command>,
                                   ws: seq<World>, k: nat)
    requires i.wallet == ch.wallet != ADDRESS_THIS
    requires AllMean(codes, inputs, commands) && Runs(ch, commands, ws)
    requires |codes| == |inputs| && k <= |codes| && CheckCommands(i, codes[..k], inputs[..k]).Ok?
    requires Apart(i, codes, CheckCommands(i, codes[..k], inputs[..k]).value.userIn)
    ensures var t := CheckCommands(i, codes[..k], inputs[..k]).value;
            |ws| == |codes| + 1
            && Safe(i, ws[0].wallet, ws[k].wallet, t.userIn, t.delivered) && (IsNative(i.sellToken) ==> t.userIn == 0)
  {
    hide Means, Steps, CheckOne, SameToken;
    if k > 0 {
      var n := k - 1;
      assert codes[..k][..n] == codes[..n] && inputs[..k][..n] == inputs[..n];
      var before := CheckCommands(i, codes[..n], inputs[..n]).value;
      var last := CheckOne(i, codes[n], inputs[n]).value;
      RunSafe(i, ch, codes, inputs, commands, ws, n);
      assert Means(codes[n], inputs[n], commands[n]) && Steps(ch, commands[n], ws[n], ws[k]);
      hide Safe;
      CheckedMeaning(i, codes[n], inputs[n], commands[n], last);
      assert codes[n] in codes;
      CommandSafe(i, ch, commands[n], last, ws[n], ws[k]);
      SafeAdd(i, ws[0].wallet, ws[n].wallet, ws[k].wallet, before.userIn, before.delivered, last.userIn, last.delivered);
    }
  }

  /** What the checker counted for a command is what its meaning contributes. */
  lemma CheckedMeaning(i: Intent, code: byte, input: bytes, c: Command, t: Tally)
    requires Means(code, input, c) && CheckOne(i, code, input) == Ok(t)
    ensures Contribution(i, c) == Ok(t) && (c.V4? ==> code == 0x10)
  {
    ReadBefore(i, code, input);
    hide ReadCommand, Contribution, SwapMeans;
    CommandMeaning(code, input, ReadCommand(code, input).value, c);
  }

  /** The checker is sound: in every run of an accepted call that does not revert, the wallet gives
      up at most the approved amount of the sell token and nothing else, and it receives at least
      the guaranteed amount of the bought one. */
  lemma AcceptedCallIsSafe(i: Intent, ch: Chain, deadline: bool, args: bytes, codes: bytes, inputs: seq<bytes>,
                           commands: seq<Command>, before: World, ws: seq<World>, out: nat)
    requires i.wallet == ch.wallet != ADDRESS_THIS && ValueFits(i) && Apart(i, codes, i.sellAmount)
    requires CheckExecute(i, deadline, args) == Ok(out) && CallMeans(args, codes, inputs)
    requires AllMean(codes, inputs, commands) && Executes(ch, i.value, commands, before, ws)
    ensures Safe(i, before.wallet, ws[|commands|].wallet, i.sellAmount, out) && out >= i.minBuy
  {
    hide DecodeExecute, CheckCommands, Runs, AllMean, Exchanged, Safe, CallMeans;
    CheckedCall(i, deadline, args, codes, inputs);
    var t := CheckCommands(i, codes, inputs).value;
    SameCounts(codes, inputs, commands);
    assert codes[..|codes|] == codes && inputs[..|codes|] == inputs;
    RunSafe(i, ch, codes, inputs, commands, ws, |codes|);
    var paid := if IsNative(i.sellToken) then i.sellAmount else 0;
    ExchangeWallet(before, ws[0], Wallet, Native, i.value, Router, Native, i.value);
    ValueSafe(i, before.wallet, ws[0].wallet);
    SafeAdd(i, before.wallet, ws[0].wallet, ws[|codes|].wallet, paid, 0, t.userIn, t.delivered);
  }

  /** The commands and inputs that the checker looked at are the ones that the call means. */
  lemma CheckedCall(i: Intent, deadline: bool, args: bytes, codes: bytes, inputs: seq<bytes>)
    requires CheckExecute(i, deadline, args).Ok? && CallMeans(args, codes, inputs)
    ensures DecodeExecute(deadline, args) == Ok((codes, inputs))
  {
    hide DecodeExecute, CheckCommands, CallMeans;
    var call := DecodeExecute(deadline, args).value;
    CallRead(deadline, args, call.0, call.1);
    CallOnce(args, call.0, call.1, codes, inputs);
  }

  lemma SameCounts(codes: bytes, inputs: seq<bytes>, commands: seq<Command>)
    requires AllMean(codes, inputs, commands)
    ensures |codes| == |inputs| == |commands|
  {}

  lemma ValueSafe(i: Intent, before: Ledger, after: Ledger)
    requires ValueFits(i) && forall c :: after(c) == before(c) - if c == Native then i.value else 0
    ensures Safe(i, before, after, if IsNative(i.sellToken) then i.sellAmount else 0, 0)
  {}

  lemma ReadBefore(i: Intent, code: byte, input: bytes)
    requires CheckOne(i, code, input).Ok?
    ensures ReadCommand(code, input).Ok?
  {
    hide ReadCommand;
  }

  /** An accepted call has a meaning, and only one: its words give one list of commands and inputs,
      and they give each command one meaning. */
  lemma AcceptedCallMeans(i: Intent, deadline: bool, args: bytes)
    requires CheckExecute(i, deadline, args).Ok?
    ensures exists codes, inputs, commands :: CallMeans(args, codes, inputs) && AllMean(codes, inputs, commands)
    ensures forall c1, n1, x1, c2, n2, x2 ::
              CallMeans(args, c1, n1) && AllMean(c1, n1, x1) && CallMeans(args, c2, n2) && AllMean(c2, n2, x2) ==>
                c1 == c2 && n1 == n2 && x1 == x2
  {
    hide DecodeExecute, CheckOne, Means, ReadCommand, CallMeans;
    var (codes, inputs) := DecodeExecute(deadline, args).value;
    CallRead(deadline, args, codes, inputs);
    forall k | 0 <= k < |codes|
      ensures ReadCommand(codes[k], inputs[k]).Ok?
    {
      CheckedEach(i, codes, inputs, k);
      ReadBefore(i, codes[k], inputs[k]);
    }
    var commands := seq(|codes|, k requires 0 <= k < |codes| => ReadCommand(codes[k], inputs[k]).value);
    forall k | 0 <= k < |codes|
      ensures Means(codes[k], inputs[k], commands[k])
    {
      CommandMeaning(codes[k], inputs[k], commands[k], commands[k]);
    }
    assert AllMean(codes, inputs, commands);
    forall c1, n1, x1, c2, n2, x2 |
      CallMeans(args, c1, n1) && AllMean(c1, n1, x1) && CallMeans(args, c2, n2) && AllMean(c2, n2, x2)
      ensures c1 == c2 && n1 == n2 && x1 == x2
    {
      CallOnce(args, c1, n1, c2, n2);
      OneMeaning(c1, n1, x1, x2);
    }
  }

  lemma OneMeaning(codes: bytes, inputs: seq<bytes>, c1: seq<Command>, c2: seq<Command>)
    requires AllMean(codes, inputs, c1) && AllMean(codes, inputs, c2)
    ensures c1 == c2
  {
    hide Means;
    forall k | 0 <= k < |c1|
      ensures c1[k] == c2[k]
    {
      MeansOnce(codes[k], inputs[k], c1[k], c2[k]);
    }
  }
}
