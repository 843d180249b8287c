/** Taking an offer: the checks on the maker's spends, the taker's side, and the settlement
    completion; and what every take that returns guarantees. */
module OfferTake {
  import opened Wrappers
  import opened Bytes
  import opened Clvm
  import opened TreeHashing
  import opened Streamable
  import opened OfferBundle
  import opened OfferConditions
  import opened Sorting
  import opened Offer
  import opened OfferString

  // ----- settlement coins -----

  function SettlementBy(lib: Lib, id: Digest, cond: Sexp): Result<seq<Settlement>>
  {
    var (op, args) :- ConditionArgs(cond);
    if op == CREATE_COIN && |args| >= 2 && args[0] == Atom(ModHash(lib)) then
      var amount :- AtomValue(args[1]);
      Ok([Settlement(id, amount)])
    else Ok([])
  }

  function SettlementOfConds(lib: Lib, id: Digest, conds: seq<Sexp>): Result<seq<Settlement>>
  {
    if conds == [] then Ok([])
    else
      var first :- SettlementBy(lib, id, conds[0]);
      var rest :- SettlementOfConds(lib, id, conds[1..]);
      Ok(first + rest)
  }

  /** `_settlement_coins` */
  function SettlementCoins(lib: Lib, spends: seq<CoinSpend>): Result<seq<Settlement>>
  {
    if spends == [] then Ok([])
    else
      var conds :- ParseConditions(spends[0].solution);
      var first :- SettlementOfConds(lib, CoinId(lib.h, spends[0].coin), conds);
      var rest :- SettlementCoins(lib, spends[1..]);
      Ok(first + rest)
  }

  function SumOf(coins: seq<Settlement>): int
  {
    if coins == [] then 0 else coins[0].amount + SumOf(coins[1..])
  }

  // ----- the summary of an offer -----

  function PaidTo(ph: bytes, outs: seq<Output>): int
  {
    if outs == [] then 0 else (if outs[0].ph == ph then outs[0].amount else 0) + PaidTo(ph, outs[1..])
  }

  /** What each maker spend offers must be positive. */
  function OfferedTotal(lib: Lib, spends: seq<CoinSpend>): Result<int>
  {
    if spends == [] then Ok(0)
    else
      var conds :- ParseConditions(spends[0].solution);
      var outs :- CreateCoinOutputs(conds);
      var total := PaidTo(ModHash(lib), outs);
      if total <= 0 then Err
      else
        var rest :- OfferedTotal(lib, spends[1..]);
        Ok(total + rest)
  }

  function Asserted(spends: seq<CoinSpend>): Result<seq<bytes>>
  {
    if spends == [] then Ok([])
    else
      var conds :- ParseConditions(spends[0].solution);
      var first :- AssertedAnnouncements(conds);
      var rest :- Asserted(spends[1..]);
      Ok(first + rest)
  }

  function PaymentsTotal(ps: seq<Payment>): int
  {
    if ps == [] then 0 else ps[0].amount + PaymentsTotal(ps[1..])
  }

  // ----- completion -----

  /** A payment as the settlement puzzle pays it: the target, and the amount if there is one. */
  function PaidBy(x: Sexp): Result<int>
  {
    var args :- ItemsOf(x);
    if |args| < 2 then Err
    else
      var memos :- if |args| > 2 then ItemsOf(args[2]) else Ok([]);
      AtomValue(args[1])
  }

  function PaidByAll(xs: seq<Sexp>): Result<int>
  {
    if xs == [] then Ok(0)
    else
      var first :- PaidBy(xs[0]);
      var rest :- PaidByAll(xs[1..]);
      Ok(first + rest)
  }

  function GroupTotal(g: Sexp): Result<int>
  {
    if g.Atom? then Err
    else
      var items :- ItemsOf(g.rest);
      PaidByAll(items)
  }

  function GroupsTotal(groups: seq<Sexp>): Result<int>
  {
    if groups == [] then Ok(0)
    else
      var first :- GroupTotal(groups[0]);
      var rest :- GroupsTotal(groups[1..]);
      Ok(first + rest)
  }

  function CoinOf(lib: Lib, s: Settlement): Coin
    requires s.amount >= 0
  {
    Coin(s.parent, ModHash(lib), s.amount)
  }

  /** The spend of a settlement coin with all the groups. */
  function CompletionOf(lib: Lib, s: Settlement, groups: seq<Sexp>): Result<CoinSpend>
  {
    if s.amount < 0 then Err
    else
      var solution :- Ser(ListOf(groups));
      Ok(CoinSpend(CoinOf(lib, s), Print(lib.offerMod), solution))
  }

  /** What `_completion_spends` returns: a second settlement coin makes the printer raise. */
  function Completion(lib: Lib, coins: seq<Settlement>, groups: seq<Sexp>): Result<seq<CoinSpend>>
  {
    if coins == [] then Ok([])
    else
      var expected :- GroupsTotal(groups);
      if SumOf(coins) != expected || |coins| != 1 then Err
      else
        var s :- CompletionOf(lib, coins[0], groups);
        Ok([s])
  }

  function CoinsOf(lib: Lib, coins: seq<Settlement>): (r: seq<Coin>)
    requires forall c :: c in coins ==> c.amount >= 0
    ensures |r| == |coins|
  {
    seq(|coins|, i requires 0 <= i < |coins| => CoinOf(lib, coins[i]))
  }

  /** The loop of the source: the first coin by id carries the groups, for every other coin it prints
      an empty list, which is neither bytes nor a pair, so printing raises. */
  method CompletionSpends(lib: Lib, coins: seq<Settlement>, groups: seq<Sexp>) returns (r: Result<seq<CoinSpend>>)
    ensures r == Completion(lib, coins, groups)
  {
    if coins == [] {
      return Ok([]);
    }
    hide GroupsTotal, Ser, ListOf, Print, ModHash;
    if exists c :: c in coins && c.amount < 0 {
      return Err;
    }
    var sorted := SortBy(CoinsOf(lib, coins), IdKey(lib.h));
    var expected := GroupsTotal(groups);
    if expected.Err? || SumOf(coins) != expected.value {
      return Err;
    }
    var completion: seq<CoinSpend> := [];
    for pos := 0 to |sorted|
      invariant pos <= 1
      invariant pos == 1 ==> Ser(ListOf(groups)).Ok?
      invariant completion == if pos == 0 then []
                              else [CoinSpend(sorted[0], Print(lib.offerMod), Ser(ListOf(groups)).value)]
    {
      if pos > 0 {
        return Err;
      }
      var solution := Ser(ListOf(groups));
      if solution.Err? {
        return Err;
      }
      completion := completion + [CoinSpend(sorted[pos], Print(lib.offerMod), solution.value)];
    }
    assert |coins| == 1;
    OneCoinSorted(lib, coins[0]);
    assert CoinsOf(lib, coins) == [CoinOf(lib, coins[0])];
    return Ok(completion);
  }

  lemma OneCoinSorted(lib: Lib, s: Settlement)
    requires s.amount >= 0
    ensures SortBy([CoinOf(lib, s)], IdKey(lib.h)) == [CoinOf(lib, s)]
  {
    assert [CoinOf(lib, s)][1..] == [];
    assert SortBy([], IdKey(lib.h)) == [];
  }

  // ----- take -----

  predicate ReceiveOk(receive: seq<Requested>, offered: int) {
    |receive| == 1 && receive[0].native && receive[0].amount == offered
  }

  datatype Taken = Taken(spends: seq<CoinSpend>, bundleBytes: bytes, txid: Digest)

  /** The maker's side: its settlement coins, and the announcement it must assert. */
  function VerifyMaker(lib: Lib, offer: Parsed): Result<seq<Settlement>>
  {
    var settlement :- SettlementCoins(lib, offer.spends);
    if settlement == [] then Err
    else
      var total :- OfferedTotal(lib, offer.spends);
      var group :- NotarizedGroup(offer.asked.nonce, offer.asked.payments);
      var asserted :- Asserted(offer.spends);
      if AnnouncementId(lib, group) in asserted then Ok(settlement) else Err
  }

  function TakerSide(lib: Lib, w: Wallet, offer: Parsed, inputs: seq<Input>, receive: seq<Requested>,
                     changePh: Option<bytes>, fee: int): Result<Side>
  {
    BuildSide(lib, w, [Leg(true, PaymentsTotal(offer.asked.payments))], receive, inputs, changePh, fee)
  }

  lemma TakerSideOf(lib: Lib, w: Wallet, offer: Parsed, inputs: seq<Input>, receive: seq<Requested>,
                    changePh: Option<bytes>, fee: int)
    ensures TakerSide(lib, w, offer, inputs, receive, changePh, fee) ==
            BuildSide(lib, w, [Leg(true, PaymentsTotal(offer.asked.payments))], receive, inputs, changePh, fee)
  {}

  /** Both completions around both sides, under one aggregated signature. */
  function Settle(lib: Lib, offer: Parsed, maker: seq<Settlement>, side: Side): Result<Taken>
  {
    var forTaker :- Completion(lib, maker, side.groups);
    var forMaker :- Completion(lib, side.settlement, offer.asked.groups);
    var spends := forTaker + offer.spends + forMaker + side.spends;
    var sig :- Aggregate(lib, [offer.signature] + side.signatures);
    var data :- SerializeBundle(spends, sig);
    Ok(Taken(spends, data, lib.h(data)))
  }

  /** `take_offer` */
  function TakeOffer(lib: Lib, w: Wallet, offer: Parsed, inputs: seq<Input>, receive: seq<Requested>,
                     changePh: Option<bytes>, fee: int): Result<Taken>
  {
    var maker :- VerifyMaker(lib, offer);
    if !ReceiveOk(receive, SumOf(maker)) then Err
    else
      var side :- TakerSide(lib, w, offer, inputs, receive, changePh, fee);
      Settle(lib, offer, maker, side)
  }

  // ----- what spends do on chain -----

  /** What the settlement puzzle pays out: one output for each payment of each group. */
  function GroupOutputs(groups: seq<Sexp>): Result<seq<Output>>
  {
    if groups == [] then Ok([])
    else if !groups[0].Pair? then Err
    else
      var items :- ItemsOf(groups[0].rest);
      var payments :- ReadPayments(items);
      var rest :- GroupOutputs(groups[1..]);
      Ok(OutputsOfPayments(payments) + rest)
  }

  function OutputsOfPayments(ps: seq<Payment>): seq<Output>
  {
    if ps == [] then [] else [Output(ps[0].ph, ps[0].amount)] + OutputsOfPayments(ps[1..])
  }

  function SettlementGroups(s: CoinSpend): Result<seq<Sexp>>
  {
    var x :- Deser(s.solution);
    ItemsOf(x)
  }

  /** The coins a spend creates: the settlement puzzle pays its groups, a standard spend obeys its conditions. */
  function Created(lib: Lib, s: CoinSpend): Result<seq<Output>>
  {
    if s.coin.puzzleHash == ModHash(lib) then
      var groups :- SettlementGroups(s);
      GroupOutputs(groups)
    else
      var conds :- ParseConditions(s.solution);
      CreateCoinOutputs(conds)
  }

  function GroupIds(lib: Lib, groups: seq<Sexp>): seq<bytes>
  {
    if groups == [] then [] else [AnnouncementId(lib, groups[0])] + GroupIds(lib, groups[1..])
  }

  /** The settlement puzzle announces the tree hash of each group. */
  function Announced(lib: Lib, s: CoinSpend): Result<seq<bytes>>
  {
    if s.coin.puzzleHash == ModHash(lib) then
      var groups :- SettlementGroups(s);
      Ok(GroupIds(lib, groups))
    else Ok([])
  }

  ghost predicate AnnouncedIn(lib: Lib, id: bytes, spends: seq<CoinSpend>) {
    exists s :: s in spends && Announced(lib, s).Ok? && id in Announced(lib, s).value
  }

  // ----- every take that returns -----

  lemma {:induction false} CompletionIs(lib: Lib, coins: seq<Settlement>, groups: seq<Sexp>, spends: seq<CoinSpend>)
    requires coins != [] && Completion(lib, coins, groups) == Ok(spends)
    ensures |coins| == 1 && GroupsTotal(groups) == Ok(coins[0].amount) && coins[0].amount >= 0
    ensures |spends| == 1 && spends[0].coin == CoinOf(lib, coins[0]) && SettlementGroups(spends[0]) == Ok(groups)
    ensures Deser(spends[0].puzzle) == Ok(lib.offerMod) && Tied(lib.h, spends[0])
  {
    hide GroupsTotal, CompletionOf, SettlementGroups, CoinOf, Deser, Tied;
    assert coins[1..] == [] && SumOf(coins[1..]) == 0;
    CompletionCarries(lib, coins[0], groups, spends[0]);
  }

  lemma CompletionCarries(lib: Lib, s: Settlement, groups: seq<Sexp>, spend: CoinSpend)
    requires CompletionOf(lib, s, groups) == Ok(spend)
    ensures s.amount >= 0 && spend.coin == CoinOf(lib, s) && SettlementGroups(spend) == Ok(groups)
    ensures Deser(spend.puzzle) == Ok(lib.offerMod) && Tied(lib.h, spend)
  {
    DeserPrinted(lib.offerMod);
    hide Ser, ListOf, Print, Printable, Deser, ItemsOf, TreeHash;
    SerRead(ListOf(groups), spend.solution);
    ItemsOfList(groups);
  }

  /** The settlement coins either side creates are exactly the coins the completion spends, each
      carries the other side's groups, and its amount is what those groups pay. */
  lemma TakeSettles(lib: Lib, w: Wallet, offer: Parsed, inputs: seq<Input>, receive: seq<Requested>,
                    changePh: Option<bytes>, fee: int, taken: Taken)
    returns (m: Settlement, t: Settlement, side: Side)
    requires TakeOffer(lib, w, offer, inputs, receive, changePh, fee) == Ok(taken)
    ensures SettlementCoins(lib, offer.spends) == Ok([m]) && m.amount >= 0 && m.amount == receive[0].amount
    ensures TakerSide(lib, w, offer, inputs, receive, changePh, fee) == Ok(side)
    ensures side.settlement == [t] && t.amount >= 0 && t.amount == PaymentsTotal(offer.asked.payments)
    ensures GroupsTotal(side.groups) == Ok(m.amount) && GroupsTotal(offer.asked.groups) == Ok(t.amount)
    ensures |taken.spends| == 2 + |offer.spends| + |side.spends|
    ensures taken.spends[0].coin == CoinOf(lib, m) && SettlementGroups(taken.spends[0]) == Ok(side.groups)
    ensures taken.spends[1..1 + |offer.spends|] == offer.spends
    ensures taken.spends[1 + |offer.spends|].coin == CoinOf(lib, t)
    ensures CoinOf(lib, m) == Coin(m.parent, ModHash(lib), m.amount) && CoinOf(lib, t) == Coin(t.parent, ModHash(lib), t.amount)
    ensures SettlementGroups(taken.spends[1 + |offer.spends|]) == Ok(offer.asked.groups)
    ensures taken.spends[2 + |offer.spends|..] == side.spends
    ensures Deser(taken.spends[0].puzzle) == Deser(taken.spends[1 + |offer.spends|].puzzle) == Ok(lib.offerMod)
    ensures Tied(lib.h, taken.spends[0]) && Tied(lib.h, taken.spends[1 + |offer.spends|])
    ensures forall s :: s in [offer.signature] + side.signatures ==> lib.isG2(s)
    ensures SerializeBundle(taken.spends, lib.aggregate([offer.signature] + side.signatures)) == Ok(taken.bundleBytes)
    ensures taken.txid == lib.h(taken.bundleBytes)
  {
    hide Completion, SettlementCoins, GroupsTotal, OfferedTotal, NotarizedGroup, Asserted, SerializeBundle,
         AnnouncementId, SettlementGroups, BuildSide, PaymentsTotal, ModHash, Deser, Tied;
    var maker := VerifyMaker(lib, offer).value;
    side := TakerSide(lib, w, offer, inputs, receive, changePh, fee).value;
    var forTaker := Completion(lib, maker, side.groups).value;
    var forMaker := Completion(lib, side.settlement, offer.asked.groups).value;
    CompletionIs(lib, maker, side.groups, forTaker);
    SideSettlement(lib, w, PaymentsTotal(offer.asked.payments), receive, inputs, changePh, fee, side);
    CompletionIs(lib, side.settlement, offer.asked.groups, forMaker);
    m, t := maker[0], side.settlement[0];
    assert maker == [m] && SumOf(maker) == m.amount by {
      assert maker[1..] == [] && SumOf([]) == 0;
    }
  }

  lemma SideSettlement(lib: Lib, w: Wallet, amount: int, receive: seq<Requested>, inputs: seq<Input>,
                       changePh: Option<bytes>, fee: int, side: Side)
    requires BuildSide(lib, w, [Leg(true, amount)], receive, inputs, changePh, fee) == Ok(side)
    ensures |side.settlement| == 1 && side.settlement[0].amount == amount
  {
    hide CheckInputs, NotarizedGroup, SpendsOf, Signatures, OriginConditions, SortBy, Total;
  }

  /** A take returns only when the maker asserts the announcement of the canonical group. */
  lemma {:induction false} MakerVerified(lib: Lib, w: Wallet, offer: Parsed, inputs: seq<Input>, receive: seq<Requested>,
                      changePh: Option<bytes>, fee: int, taken: Taken)
    requires TakeOffer(lib, w, offer, inputs, receive, changePh, fee) == Ok(taken)
    ensures var group := NotarizedGroup(offer.asked.nonce, offer.asked.payments);
            && group.Ok? && Asserted(offer.spends).Ok?
            && AnnouncementId(lib, group.value) in Asserted(offer.spends).value
    ensures OfferedTotal(lib, offer.spends).Ok?
  {
    hide SettlementCoins, OfferedTotal, NotarizedGroup, Asserted, AnnouncementId, TakerSide, Settle;
  }
}
