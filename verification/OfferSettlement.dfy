/** End to end: an offer that was made, parsed and taken settles, conserves mojos and pays both
    parties what they asked for. */
module OfferSettlement {
  import opened Wrappers
  import opened Radix
  import opened Bytes
  import opened Clvm
  import opened TreeHashing
  import opened Streamable
  import opened OfferBundle
  import opened OfferConditions
  import opened Sorting
  import opened Offer
  import opened OfferString
  import opened OfferMade
  import opened OfferTake
  import opened OfferBytes
  import B = Bech32mText

  // ----- reading a side's conditions -----

  /** A change puzzle hash that is one, and is not the settlement puzzle's. */
  predicate GoodChange(lib: Lib, ph: bytes) { |ph| == 32 && ph != ModHash(lib) }

  function ReservedBy(cond: Sexp): Result<int>
  {
    var (op, args) :- ConditionArgs(cond);
    if op != RESERVE_FEE then Ok(0)
    else if args == [] then Err
    else AtomValue(args[0])
  }

  function Reserved(conds: seq<Sexp>): Result<int>
  {
    if conds == [] then Ok(0)
    else
      var first :- ReservedBy(conds[0]);
      var rest :- Reserved(conds[1..]);
      Ok(first + rest)
  }

  /** Everything the model reads from one list of conditions. */
  datatype Reading = Reading(outs: seq<Output>, ids: seq<bytes>, settlement: seq<Settlement>, reserved: int)

  ghost predicate Reads(lib: Lib, id: Digest, conds: seq<Sexp>, r: Reading) {
    && CreateCoinOutputs(conds) == Ok(r.outs)
    && AssertedAnnouncements(conds) == Ok(r.ids)
    && SettlementOfConds(lib, id, conds) == Ok(r.settlement)
    && Reserved(conds) == Ok(r.reserved)
  }

  function Joint(a: Reading, b: Reading): Reading {
    Reading(a.outs + b.outs, a.ids + b.ids, a.settlement + b.settlement, a.reserved + b.reserved)
  }

  const NOTHING := Reading([], [], [], 0)

  lemma ReadsNothing(lib: Lib, id: Digest)
    ensures Reads(lib, id, [], NOTHING)
  {}

  lemma {:induction false} ReadsConcat(lib: Lib, id: Digest, xs: seq<Sexp>, ys: seq<Sexp>, a: Reading, b: Reading)
    requires Reads(lib, id, xs, a) && Reads(lib, id, ys, b)
    ensures Reads(lib, id, xs + ys, Joint(a, b))
  {
    hide CreateCoinOutputs, AssertedAnnouncements, SettlementOfConds, Reserved;
    OutputsConcat(xs, ys, a.outs, b.outs);
    AssertedConcat(xs, ys, a.ids, b.ids);
    SettlementConcat(lib, id, xs, ys, a.settlement, b.settlement);
    ReservedConcat(xs, ys, a.reserved, b.reserved);
  }

  lemma {:induction false} SettlementConcat(lib: Lib, id: Digest, xs: seq<Sexp>, ys: seq<Sexp>, a: seq<Settlement>,
                                            b: seq<Settlement>)
    requires SettlementOfConds(lib, id, xs) == Ok(a) && SettlementOfConds(lib, id, ys) == Ok(b)
    ensures SettlementOfConds(lib, id, xs + ys) == Ok(a + b)
    decreases |xs|
  {
    hide SettlementBy, CoinId;
    if xs == [] {
      assert xs + ys == ys && a + b == b;
    } else {
      var first, rest := SettlementBy(lib, id, xs[0]).value, SettlementOfConds(lib, id, xs[1..]).value;
      SettlementConcat(lib, id, xs[1..], ys, rest, b);
      assert (xs + ys)[1..] == xs[1..] + ys;
      assert first + (rest + b) == first + rest + b;
    }
  }

  lemma {:induction false} ReservedConcat(xs: seq<Sexp>, ys: seq<Sexp>, a: int, b: int)
    requires Reserved(xs) == Ok(a) && Reserved(ys) == Ok(b)
    ensures Reserved(xs + ys) == Ok(a + b)
    decreases |xs|
  {
    hide ReservedBy;
    if xs == [] {
      assert xs + ys == ys;
    } else {
      ReservedConcat(xs[1..], ys, Reserved(xs[1..]).value, b);
      assert (xs + ys)[1..] == xs[1..] + ys;
    }
  }

  lemma ReadsOne(lib: Lib, id: Digest, cond: Sexp, r: Reading)
    requires OutputsOf(cond) == Ok(r.outs) && AssertedBy(cond) == Ok(r.ids)
    requires SettlementBy(lib, id, cond) == Ok(r.settlement) && ReservedBy(cond) == Ok(r.reserved)
    ensures Reads(lib, id, [cond], r)
  {
    hide OutputsOf, AssertedBy, SettlementBy, ReservedBy;
    OneCondition(cond, r.outs, r.ids);
    assert [cond][1..] == [] && r.settlement + [] == r.settlement;
    assert SettlementOfConds(lib, id, []) == Ok([]) && Reserved([]) == Ok(0);
  }

  lemma ReadsCoin(lib: Lib, id: Digest, ph: bytes, amount: nat)
    requires |ph| == 32
    ensures Reads(lib, id, [CreateCoin(ph, amount)],
                  Reading([Output(ph, amount)], [], if ph == ModHash(lib) then [Settlement(id, amount)] else [], 0))
  {
    var args := [Atom(ph), Atom(IntToBytes(amount))];
    assert [Atom(IntToBytes(CREATE_COIN))] + args == [Atom(IntToBytes(CREATE_COIN)), Atom(ph), Atom(IntToBytes(amount))];
    ReadBuilt(CREATE_COIN, args);
    CreateCoinRead(ph, amount);
    AtomIntOfBytes(amount);
    hide ListOf, ItemsOf, IntToBytes, AtomInt, ConditionArgs, OutputsOf, AssertedBy, ModHash, Reads;
    ReadsOne(lib, id, CreateCoin(ph, amount),
             Reading([Output(ph, amount)], [], if ph == ModHash(lib) then [Settlement(id, amount)] else [], 0));
  }

  lemma ReadsFee(lib: Lib, id: Digest, fee: nat)
    ensures Reads(lib, id, [ReserveFee(fee)], Reading([], [], [], fee))
  {
    var args := [Atom(IntToBytes(fee))];
    assert [Atom(IntToBytes(RESERVE_FEE))] + args == [Atom(IntToBytes(RESERVE_FEE)), Atom(IntToBytes(fee))];
    ReadBuilt(RESERVE_FEE, args);
    ReserveFeeRead(fee);
    AtomIntOfBytes(fee);
    hide ListOf, ItemsOf, IntToBytes, AtomInt, ConditionArgs, OutputsOf, AssertedBy, Reads;
    ReadsOne(lib, id, ReserveFee(fee), Reading([], [], [], fee));
  }

  lemma {:induction false} ReadsAnnouncement(lib: Lib, id: Digest, group: Sexp)
    ensures Reads(lib, id, [AssertAnnouncement(lib.h, ModHash(lib), TreeHash(lib.h, group))],
                  Reading([], [AnnouncementId(lib, group)], [], 0))
  {
    var message := TreeHash(lib.h, group);
    var args := [Atom(AnnouncementId(lib, group))];
    assert [Atom(IntToBytes(ASSERT_PUZZLE_ANNOUNCEMENT))] + args
        == [Atom(IntToBytes(ASSERT_PUZZLE_ANNOUNCEMENT)), Atom(lib.h(ModHash(lib) + message))];
    ReadBuilt(ASSERT_PUZZLE_ANNOUNCEMENT, args);
    AnnouncementRead(lib.h, ModHash(lib), message);
    hide ListOf, ItemsOf, IntToBytes, AtomInt, ConditionArgs, OutputsOf, AssertedBy, Reads, ModHash, TreeHash;
    ReadsOne(lib, id, AssertAnnouncement(lib.h, ModHash(lib), message), Reading([], [AnnouncementId(lib, group)], [], 0));
  }

  function OriginOutputs(lib: Lib, amount: nat, changePh: bytes, change: nat): seq<Output>
  {
    [Output(ModHash(lib), amount)] + if change > 0 then [Output(changePh, change)] else []
  }

  /** The first spend of a side pays the settlement puzzle once, the change once, reserves the fee and
      asserts one announcement. */
  lemma OriginReads(lib: Lib, id: Digest, amount: nat, changePh: bytes, change: nat, fee: nat, group: Sexp)
    requires GoodChange(lib, changePh)
    ensures Reads(lib, id, OriginConditions(lib, amount, changePh, change, fee, group),
                  Reading(OriginOutputs(lib, amount, changePh, change), [AnnouncementId(lib, group)],
                          [Settlement(id, amount)], fee))
  {
    hide Reads, ModHash, CreateCoin, ReserveFee, AssertAnnouncement, TreeHash, AnnouncementId;
    var a := [CreateCoin(ModHash(lib), amount)];
    var b := if change > 0 then [CreateCoin(changePh, change)] else [];
    var c := if fee > 0 then [ReserveFee(fee)] else [];
    var d := [AssertAnnouncement(lib.h, ModHash(lib), TreeHash(lib.h, group))];
    var rb := Reading(if change > 0 then [Output(changePh, change)] else [], [], [], 0);
    var rc := Reading([], [], [], fee);
    ReadsCoin(lib, id, ModHash(lib), amount);
    ReadsNothing(lib, id);
    if change > 0 {
      ReadsCoin(lib, id, changePh, change);
    }
    if fee > 0 {
      ReadsFee(lib, id, fee);
    }
    ReadsAnnouncement(lib, id, group);
    var ra := Reading([Output(ModHash(lib), amount)], [], [Settlement(id, amount)], 0);
    ReadsConcat(lib, id, a, b, ra, rb);
    ReadsConcat(lib, id, a + b, c, Joint(ra, rb), rc);
    var rd := Reading([], [AnnouncementId(lib, group)], [], 0);
    ReadsConcat(lib, id, a + b + c, d, Joint(Joint(ra, rb), rc), rd);
    var whole := Joint(Joint(Joint(ra, rb), rc), rd);
    assert whole.outs == OriginOutputs(lib, amount, changePh, change);
    assert whole.ids == [AnnouncementId(lib, group)] && whole.settlement == [Settlement(id, amount)];
  }

  // ----- reading a side -----

  lemma {:induction false} EmptySpends(lib: Lib, spends: seq<CoinSpend>)
    requires forall i :: 0 <= i < |spends| ==> ParseConditions(spends[i].solution) == Ok([])
    ensures SettlementCoins(lib, spends) == Ok([]) && Asserted(spends) == Ok([])
    ensures spends != [] ==> OfferedTotal(lib, spends) == Err
    decreases |spends|
  {
    hide ParseConditions, ModHash;
    if spends != [] {
      EmptySpends(lib, spends[1..]);
      var coins: seq<Settlement>, ids: seq<bytes> := [], [];
      assert coins + coins == coins && ids + ids == ids;
      assert SettlementOfConds(lib, CoinId(lib.h, spends[0].coin), []) == Ok([]);
      assert AssertedAnnouncements([]) == Ok([]) && CreateCoinOutputs([]) == Ok([]) && PaidTo(ModHash(lib), []) == 0;
    }
  }

  lemma OriginPays(lib: Lib, amount: nat, changePh: bytes, change: nat)
    requires GoodChange(lib, changePh)
    ensures PaidTo(ModHash(lib), OriginOutputs(lib, amount, changePh, change)) == amount
    ensures OutputTotal(OriginOutputs(lib, amount, changePh, change)) == amount + change
  {
    hide ModHash;
    var outs := OriginOutputs(lib, amount, changePh, change);
    var rest := outs[1..];
    if change > 0 {
      assert rest == [Output(changePh, change)] && rest[1..] == [];
      assert PaidTo(ModHash(lib), rest) == 0 && OutputTotal(rest) == change;
    } else {
      assert rest == [];
    }
  }

  function OutputTotal(outs: seq<Output>): int
  {
    if outs == [] then 0 else outs[0].amount + OutputTotal(outs[1..])
  }

  /** A side that `BuildSide` built for `amount`, asking for one group, with change and fee. */
  ghost predicate IsSide(lib: Lib, w: Wallet, side: Side, sorted: seq<Owned>, amount: nat, changePh: bytes, change: nat, fee: nat) {
    && |side.groups| == 1 && amount > 0 && GoodChange(lib, changePh)
    && Assembled(lib, w, side, sorted, OriginConditions(lib, amount, changePh, change, fee, side.groups[0]))
    && side.settlement == [Settlement(CoinId(lib.h, sorted[0].coin), amount)]
  }

  /** What its own reader finds in a side: one settlement coin, one assertion; and the summary
      accepts it exactly when it has one spend. */
  lemma {:induction false} SideRead(lib: Lib, w: Wallet, side: Side, sorted: seq<Owned>, amount: nat,
                                    changePh: bytes, change: nat, fee: nat)
    requires IsSide(lib, w, side, sorted, amount, changePh, change, fee)
    ensures SettlementCoins(lib, side.spends) == Ok(side.settlement)
    ensures Asserted(side.spends) == Ok([AnnouncementId(lib, side.groups[0])])
    ensures OfferedTotal(lib, side.spends) == if |side.spends| == 1 then Ok(amount) else Err
  {
    var id := CoinId(lib.h, sorted[0].coin);
    var conds := OriginConditions(lib, amount, changePh, change, fee, side.groups[0]);
    hide *;
    SideParts(lib, w, side, sorted, amount, changePh, change, fee);
    AssembledSorted(lib, w, side, sorted, conds);
    OriginReads(lib, id, amount, changePh, change, fee, side.groups[0]);
    OriginPays(lib, amount, changePh, change);
    SpendInSide(lib, w, side, sorted, conds, 0);
    FirstSays(conds);
    var rest := side.spends[1..];
    forall i | 0 <= i < |rest|
      ensures ParseConditions(rest[i].solution) == Ok([])
    {
      SpendInSide(lib, w, side, sorted, conds, i + 1);
      OthersSay(conds, i + 1);
    }
    EmptySpends(lib, rest);
    OriginThenEmpty(lib, side.spends, conds, OriginOutputs(lib, amount, changePh, change),
                    [AnnouncementId(lib, side.groups[0])], side.settlement, fee, amount);
  }

  lemma SideParts(lib: Lib, w: Wallet, side: Side, sorted: seq<Owned>, amount: nat, changePh: bytes, change: nat, fee: nat)
    requires IsSide(lib, w, side, sorted, amount, changePh, change, fee)
    ensures |side.groups| == 1 && amount > 0 && GoodChange(lib, changePh)
    ensures Assembled(lib, w, side, sorted, OriginConditions(lib, amount, changePh, change, fee, side.groups[0]))
    ensures sorted != [] && side.settlement == [Settlement(CoinId(lib.h, sorted[0].coin), amount)]
  {
    hide OriginConditions, SpendsOf, Ours;
  }

  lemma {:induction false} OriginThenEmpty(lib: Lib, spends: seq<CoinSpend>, conds: seq<Sexp>, outs: seq<Output>, ids: seq<bytes>,
                        settlement: seq<Settlement>, fee: int, amount: nat)
    requires spends != [] && ParseConditions(spends[0].solution) == Ok(conds) && amount > 0
    requires Reads(lib, CoinId(lib.h, spends[0].coin), conds, Reading(outs, ids, settlement, fee))
    requires PaidTo(ModHash(lib), outs) == amount
    requires SettlementCoins(lib, spends[1..]) == Ok([]) && Asserted(spends[1..]) == Ok([])
    requires spends[1..] != [] ==> OfferedTotal(lib, spends[1..]) == Err
    ensures SettlementCoins(lib, spends) == Ok(settlement) && Asserted(spends) == Ok(ids)
    ensures OfferedTotal(lib, spends) == if |spends| == 1 then Ok(amount) else Err
  {
    hide ParseConditions, CreateCoinOutputs, AssertedAnnouncements, SettlementOfConds, Reserved, CoinId, ModHash, PaidTo;
    assert settlement + [] == settlement && ids + [] == ids;
    assert OfferedTotal(lib, []) == Ok(0);
  }

  // ----- flows -----

  /** Mojos in, mojos out, and mojos reserved for the fee. */
  datatype Flow = Flow(spent: int, created: int, reserved: int)

  function AddFlow(a: Flow, b: Flow): Flow {
    Flow(a.spent + b.spent, a.created + b.created, a.reserved + b.reserved)
  }

  function SpendFlow(lib: Lib, s: CoinSpend): Result<Flow>
  {
    var outs :- Created(lib, s);
    if s.coin.puzzleHash == ModHash(lib) then Ok(Flow(s.coin.amount, OutputTotal(outs), 0))
    else
      var conds :- ParseConditions(s.solution);
      var fee :- Reserved(conds);
      Ok(Flow(s.coin.amount, OutputTotal(outs), fee))
  }

  function Flows(lib: Lib, spends: seq<CoinSpend>): Result<Flow>
  {
    if spends == [] then Ok(Flow(0, 0, 0))
    else
      var n := |spends| - 1;
      var before :- Flows(lib, spends[..n]);
      var last :- SpendFlow(lib, spends[n]);
      Ok(AddFlow(before, last))
  }

  lemma {:induction false} FlowsConcat(lib: Lib, xs: seq<CoinSpend>, ys: seq<CoinSpend>, a: Flow, b: Flow)
    requires Flows(lib, xs) == Ok(a) && Flows(lib, ys) == Ok(b)
    ensures Flows(lib, xs + ys) == Ok(AddFlow(a, b))
    decreases |ys|
  {
    hide SpendFlow;
    if ys == [] {
      assert xs + ys == xs;
    } else {
      var n := |ys| - 1;
      FlowsConcat(lib, xs, ys[..n], a, Flows(lib, ys[..n]).value);
      assert (xs + ys)[..|xs + ys| - 1] == xs + ys[..n];
    }
  }

  lemma {:induction false} OneFlow(lib: Lib, s: CoinSpend, f: Flow)
    requires SpendFlow(lib, s) == Ok(f)
    ensures Flows(lib, [s]) == Ok(f)
  {
    hide SpendFlow;
    assert [s][..0] == [];
    assert Flows(lib, []) == Ok(Flow(0, 0, 0));
  }

  lemma {:induction false} StandardFlow(lib: Lib, s: CoinSpend, conds: seq<Sexp>, outs: seq<Output>, fee: int)
    requires s.coin.puzzleHash != ModHash(lib) && ParseConditions(s.solution) == Ok(conds)
    requires CreateCoinOutputs(conds) == Ok(outs) && Reserved(conds) == Ok(fee)
    ensures SpendFlow(lib, s) == Ok(Flow(s.coin.amount, OutputTotal(outs), fee))
  {
    hide ParseConditions, CreateCoinOutputs, Reserved, ModHash, OutputTotal;
  }

  /** A side spends all its inputs, creates the offered amount and the change, and reserves the fee. */
  lemma {:induction false} SideFlow(lib: Lib, w: Wallet, side: Side, sorted: seq<Owned>, amount: nat, changePh: bytes,
                                    change: nat, fee: nat, k: nat)
    requires IsSide(lib, w, side, sorted, amount, changePh, change, fee)
    requires forall o :: o in sorted ==> o.coin.puzzleHash != ModHash(lib)
    requires k <= |sorted| == |side.spends|
    ensures Flows(lib, side.spends[..k]) ==
            Ok(Flow(Total(OwnedCoins(sorted[..k])), if k == 0 then 0 else amount + change, if k == 0 then 0 else fee))
    decreases k
  {
    hide Assembled, OriginConditions, ParseConditions, CreateCoinOutputs, Reserved, ModHash, SpendFlow, OutputTotal,
         OriginOutputs, CoinId, AnnouncementId, OwnedCoins, Total;
    if k == 0 {
      NoCoins();
      assert sorted[..0] == [] && side.spends[..0] == [];
    } else {
      var n := k - 1;
      var conds := OriginConditions(lib, amount, changePh, change, fee, side.groups[0]);
      SideFlow(lib, w, side, sorted, amount, changePh, change, fee, n);
      SpendInSide(lib, w, side, sorted, conds, n);
      assert sorted[n] in sorted;
      if n == 0 {
        OriginReads(lib, CoinId(lib.h, sorted[0].coin), amount, changePh, change, fee, side.groups[0]);
        OriginPays(lib, amount, changePh, change);
        StandardFlow(lib, side.spends[n], conds, OriginOutputs(lib, amount, changePh, change), fee);
      } else {
        NoConditions();
        StandardFlow(lib, side.spends[n], [], [], 0);
      }
      assert side.spends[..k][..n] == side.spends[..n];
      assert sorted[..k] == sorted[..n] + [sorted[n]];
      OwnedCoinsAdd(sorted[..n], sorted[n]);
      TotalAdd(OwnedCoins(sorted[..n]), sorted[n].coin);
    }
  }

  lemma NoConditions()
    ensures CreateCoinOutputs([]) == Ok([]) && Reserved([]) == Ok(0) && OutputTotal([]) == 0
  {}

  // ----- totals do not depend on order -----

  lemma {:induction false} TotalFront(c: Coin, cs: seq<Coin>)
    ensures Total([c] + cs) == c.amount + Total(cs)
    decreases |cs|
  {
    if cs == [] {
      assert [c] + cs == [] + [c];
      TotalAdd([], c);
    } else {
      var n := |cs| - 1;
      TotalFront(c, cs[..n]);
      assert [c] + cs == ([c] + cs[..n]) + [cs[n]];
      TotalAdd([c] + cs[..n], cs[n]);
    }
  }

  lemma {:induction false} InsertTotal(x: Owned, xs: seq<Owned>, key: Owned -> nat)
    ensures Total(OwnedCoins(Insert(x, xs, key))) == x.coin.amount + Total(OwnedCoins(xs))
    decreases |xs|
  {
    hide Total;
    if xs == [] || key(x) <= key(xs[0]) {
      assert OwnedCoins([x] + xs) == [x.coin] + OwnedCoins(xs);
      TotalFront(x.coin, OwnedCoins(xs));
    } else {
      var rest := Insert(x, xs[1..], key);
      InsertTotal(x, xs[1..], key);
      assert OwnedCoins([xs[0]] + rest) == [xs[0].coin] + OwnedCoins(rest);
      assert OwnedCoins(xs) == [xs[0].coin] + OwnedCoins(xs[1..]);
      TotalFront(xs[0].coin, OwnedCoins(rest));
      TotalFront(xs[0].coin, OwnedCoins(xs[1..]));
    }
  }

  lemma {:induction false} SortTotal(xs: seq<Owned>, key: Owned -> nat)
    ensures Total(OwnedCoins(SortBy(xs, key))) == Total(OwnedCoins(xs))
    decreases |xs|
  {
    hide Total, Insert;
    if xs != [] {
      SortTotal(xs[1..], key);
      InsertTotal(xs[0], SortBy(xs[1..], key), key);
      assert OwnedCoins(xs) == [xs[0].coin] + OwnedCoins(xs[1..]);
      TotalFront(xs[0].coin, OwnedCoins(xs[1..]));
    }
  }

  // ----- a take of a made offer -----

  /** A settlement coin that carries one canonical group with one payment makes exactly that payment. */
  lemma GroupPays(nonce: bytes, p: Payment)
    requires |p.ph| == 32 && p.amount >= 0
    ensures GroupsTotal([Group(nonce, [p])]) == Ok(p.amount)
    ensures GroupOutputs([Group(nonce, [p])]) == Ok([Output(p.ph, p.amount)])
  {
    var g, x := Group(nonce, [p]), PaymentSexp(p);
    assert g == Pair(Atom(nonce), ListOf([x])) by {
      assert seq(1, i requires 0 <= i < 1 => PaymentSexp([p][i])) == [x];
    }
    ItemsOfList([x]);
    ItemsOfList([Atom(p.ph), Atom(IntToBytes(p.amount)), ListOf(p.memos)]);
    ItemsOfList(p.memos);
    AtomIntOfBytes(p.amount);
    PaymentRead(p);
    hide ListOf, ItemsOf, Group, PaymentSexp, IntToBytes, AtomInt, ReadPayment;
    assert PaidBy(x) == Ok(p.amount);
    OneGroup(g, x, p);
  }

  lemma OneGroup(g: Sexp, x: Sexp, p: Payment)
    requires g.Pair? && ItemsOf(g.rest) == Ok([x]) && PaidBy(x) == Ok(p.amount) && ReadPayment(x) == Ok(p)
    ensures GroupsTotal([g]) == Ok(p.amount) && GroupOutputs([g]) == Ok([Output(p.ph, p.amount)])
  {
    hide ItemsOf, PaidBy, ReadPayment;
    assert [x][1..] == [] && [g][1..] == [] && [p][1..] == [];
    assert PaidByAll([]) == Ok(0) && GroupsTotal([]) == Ok(0) && ReadPayments([]) == Ok([]) && GroupOutputs([]) == Ok([]);
    assert PaidByAll([x]) == Ok(p.amount) && GroupTotal(g) == Ok(p.amount);
    assert [p] + [] == [p] && ReadPayments([x]) == Ok([p]);
    assert OutputsOfPayments([]) == [] && OutputsOfPayments([p]) == [Output(p.ph, p.amount)];
  }

  lemma {:induction false} CompletionSucceeds(lib: Lib, s: Settlement, g: Sexp)
    requires s.amount >= 0 && Printable(g) && GroupsTotal([g]) == Ok(s.amount)
    ensures Completion(lib, [s], [g]).Ok?
  {
    ListPrintable([g]);
    hide ListOf, Printable, Print, GroupsTotal;
    assert [s][1..] == [] && SumOf([]) == 0 && SumOf([s]) == s.amount;
  }

  predicate U64(amount: int) { 0 <= amount < Pow(256, 8) }

  lemma {:induction false} SpendsSerialize(ss: seq<CoinSpend>)
    requires forall s :: s in ss ==> U64(s.coin.amount)
    ensures SpendsBytes(ss).Ok?
    decreases |ss|
  {
    hide Pow, ToBytes;
    if ss != [] {
      assert ss[0] in ss;
      SpendsSerialize(ss[1..]);
    }
  }

  lemma {:induction false} SerializedAmounts(ss: seq<CoinSpend>)
    requires SpendsBytes(ss).Ok?
    ensures forall s :: s in ss ==> U64(s.coin.amount)
    decreases |ss|
  {
    hide Pow, ToBytes;
    if ss != [] {
      SerializedAmounts(ss[1..]);
      assert forall s :: s in ss ==> s == ss[0] || s in ss[1..];
    }
  }

  lemma BundleSerializes(ss: seq<CoinSpend>, sig: Signature)
    requires |ss| < Pow(256, 4) && forall s :: s in ss ==> U64(s.coin.amount)
    ensures SerializeBundle(ss, sig).Ok?
  {
    hide Pow, U64, ToBytes, SpendsBytes;
    SpendsSerialize(ss);
  }

  lemma SignedG2(lib: Lib, w: Wallet, side: Side, sorted: seq<Owned>, conds: seq<Sexp>)
    requires SignsG2(lib, w) && Assembled(lib, w, side, sorted, conds)
    ensures side.signatures != [] && forall s :: s in side.signatures ==> lib.isG2(s)
  {
    hide SpendsOf, Ours;
    forall s | s in side.signatures
      ensures lib.isG2(s)
    {
      var i :| 0 <= i < |side.signatures| && side.signatures[i] == s;
      SignaturesAt(w, sorted, conds, i);
    }
  }

  /** A side asks, in one canonical group, for the payment it was built with. */
  ghost predicate AsksFor(side: Side, payment: Payment) {
    && NoDebts([payment]) && |payment.ph| == 32
    && side.groups == [Group(side.nonce, [payment])] && Printable(side.groups[0])
  }

  lemma SideFrom(lib: Lib, w: Wallet, side: Side, sorted: seq<Owned>, amount: nat, changePh: bytes, change: nat,
                 fee: nat, p: Payment)
    requires NoDebts([p]) && |p.ph| == 32 && side.groups == [Group(side.nonce, [p])] && Printable(side.groups[0])
    requires amount > 0 && GoodChange(lib, changePh) && sorted != []
    requires Assembled(lib, w, side, sorted, OriginConditions(lib, amount, changePh, change, fee, side.groups[0]))
    requires side.settlement == [Settlement(CoinId(lib.h, sorted[0].coin), amount)]
    ensures AsksFor(side, p) && IsSide(lib, w, side, sorted, amount, changePh, change, fee)
  {
    hide Group, Printable, GoodChange, OriginConditions, CoinId, SpendsOf, Ours;
  }

  lemma SideFacts(lib: Lib, w: Wallet, offered: seq<Leg>, requested: seq<Requested>, inputs: seq<Input>,
                  changePh: Option<bytes>, fee: int, side: Side)
    returns (sorted: seq<Owned>, change: nat)
    requires BuildSide(lib, w, offered, requested, inputs, changePh, fee) == Ok(side)
    requires changePh.Some? && GoodChange(lib, changePh.value)
    requires forall i :: 0 <= i < |inputs| ==> inputs[i].coin.puzzleHash != ModHash(lib)
    ensures LegsOk(offered, requested) && fee >= 0
    ensures AsksFor(side, Payment(requested[0].ph, requested[0].amount, []))
    ensures IsSide(lib, w, side, sorted, offered[0].amount, changePh.value, change, fee)
    ensures |sorted| == |inputs| == |side.spends|
    ensures forall o :: o in sorted ==> o.coin.puzzleHash != ModHash(lib)
    ensures forall o :: o in sorted ==> exists i :: 0 <= i < |inputs| && inputs[i].coin == o.coin
    ensures Total(OwnedCoins(sorted)) == Total(InputCoins(inputs)) == offered[0].amount + fee + change
  {
    hide *;
    var owned, sorted', conds, payment, amount, change' := BuiltSide(lib, w, offered, requested, inputs, changePh, fee, side);
    sorted, change := sorted', change';
    LegHash(offered, requested);
    SortTotal(owned, OwnedKey(lib.h));
    SameCoins(owned, inputs);
    AssembledSorted(lib, w, side, sorted, conds);
    SideFrom(lib, w, side, sorted, amount, changePh.value, change, fee, payment);
    forall o | o in sorted
      ensures o.coin.puzzleHash != ModHash(lib)
      ensures exists i :: 0 <= i < |inputs| && inputs[i].coin == o.coin
    {
      SortedOurs(lib, owned, o);
      var i :| 0 <= i < |owned| && owned[i] == o;
      assert inputs[i].coin == o.coin;
    }
  }

  /** The maker's check of a made offer: passed with one maker input, refused with more. */
  lemma MakerChecked(lib: Lib, w: Wallet, offer: Parsed, side: Side, sorted: seq<Owned>, payment: Payment, amount: nat,
                     changePh: bytes, change: nat, fee: nat)
    requires IsSide(lib, w, side, sorted, amount, changePh, change, fee) && AsksFor(side, payment)
    requires offer.spends == side.spends && offer.asked.nonce == side.nonce && offer.asked.payments == [payment]
    ensures VerifyMaker(lib, offer) == if |side.spends| == 1 then Ok(side.settlement) else Err
  {
    SideRead(lib, w, side, sorted, amount, changePh, change, fee);
    SideParts(lib, w, side, sorted, amount, changePh, change, fee);
    hide IsSide, SettlementCoins, Asserted, OfferedTotal, AnnouncementId, Group, Printable, GoodChange;
    assert NotarizedGroup(side.nonce, [payment]) == Ok(side.groups[0]);
  }

  /** A group that can be printed and pays `p` and nothing else. */
  predicate Pays(g: Sexp, p: Payment) {
    Printable(g) && GroupsTotal([g]) == Ok(p.amount) && GroupOutputs([g]) == Ok([Output(p.ph, p.amount)])
  }

  lemma CompletionSpend(lib: Lib, s: Settlement, g: Sexp, p: Payment, spend: CoinSpend)
    requires Pays(g, p) && Completion(lib, [s], [g]) == Ok([spend])
    ensures s.amount == p.amount && spend.coin == CoinOf(lib, s)
    ensures Created(lib, spend) == Ok([Output(p.ph, p.amount)])
    ensures SpendFlow(lib, spend) == Ok(Flow(s.amount, p.amount, 0))
  {
    CompletionIs(lib, [s], [g], [spend]);
    hide Completion, GroupsTotal, GroupOutputs, SettlementGroups, ModHash;
    assert OutputTotal([Output(p.ph, p.amount)]) == p.amount by {
      assert [Output(p.ph, p.amount)][1..] == [] && OutputTotal([]) == 0;
    }
  }

  lemma SidePays(side: Side, p: Payment)
    requires AsksFor(side, p)
    ensures |side.groups| == 1 && Pays(side.groups[0], p)
  {
    assert [p][0].amount >= 0;
    GroupPays(side.nonce, p);
    hide Group, GroupsTotal, GroupOutputs, Printable;
  }

  /** The maker's and the taker's sides of one exchange: each is asked for what it offers, the maker
      by its side's group and the taker by the group `g` of the offer. */
  ghost predicate Matched(m: Side, t: Side, g: Sexp, mp: Payment, tp: Payment) {
    && AsksFor(t, tp) && Pays(g, mp)
    && |m.settlement| == 1 && m.settlement[0].amount == tp.amount
    && |t.settlement| == 1 && t.settlement[0].amount == mp.amount
  }

  lemma BothComplete(lib: Lib, m: Side, t: Side, g: Sexp, mp: Payment, tp: Payment) returns (a: CoinSpend, b: CoinSpend)
    requires Matched(m, t, g, mp, tp) && mp.amount >= 0 && tp.amount >= 0
    ensures Completion(lib, m.settlement, t.groups) == Ok([a]) && Completion(lib, t.settlement, [g]) == Ok([b])
    ensures a.coin.amount == tp.amount && b.coin.amount == mp.amount
    ensures Created(lib, a) == Ok([Output(tp.ph, tp.amount)]) && Created(lib, b) == Ok([Output(mp.ph, mp.amount)])
    ensures SpendFlow(lib, a) == Ok(Flow(tp.amount, tp.amount, 0)) && SpendFlow(lib, b) == Ok(Flow(mp.amount, mp.amount, 0))
  {
    SidePays(t, tp);
    hide Completion, Group, GroupsTotal, GroupOutputs, Created, SpendFlow, Printable, ModHash, AsksFor;
    var h := t.groups[0];
    assert m.settlement == [m.settlement[0]] && t.settlement == [t.settlement[0]] && t.groups == [h];
    CompletionSucceeds(lib, m.settlement[0], h);
    CompletionSucceeds(lib, t.settlement[0], g);
    var xs, ys := Completion(lib, m.settlement, [h]).value, Completion(lib, t.settlement, [g]).value;
    CompletionIs(lib, m.settlement, [h], xs);
    CompletionIs(lib, t.settlement, [g], ys);
    a, b := xs[0], ys[0];
    assert xs == [a] && ys == [b];
    CompletionSpend(lib, m.settlement[0], h, tp, a);
    CompletionSpend(lib, t.settlement[0], g, mp, b);
  }

  lemma {:induction false} SettleSucceeds(lib: Lib, offer: Parsed, m: Side, t: Side, a: CoinSpend, b: CoinSpend,
                                          x: nat, y: nat, mf: Flow, tf: Flow)
    requires Completion(lib, m.settlement, t.groups) == Ok([a])
    requires Completion(lib, t.settlement, offer.asked.groups) == Ok([b]) && offer.spends == m.spends
    requires lib.isG2(offer.signature) && forall s :: s in t.signatures ==> lib.isG2(s)
    requires U64(a.coin.amount) && U64(b.coin.amount) && |m.spends| + |t.spends| + 2 < Pow(256, 4)
    requires forall s :: s in m.spends || s in t.spends ==> U64(s.coin.amount)
    requires SpendFlow(lib, a) == Ok(Flow(x, x, 0)) && SpendFlow(lib, b) == Ok(Flow(y, y, 0))
    requires Flows(lib, m.spends) == Ok(mf) && Flows(lib, t.spends) == Ok(tf)
    ensures var r := Settle(lib, offer, m.settlement, t);
            && r.Ok? && |r.value.spends| == 2 + |m.spends| + |t.spends|
            && r.value.spends[0] == a && r.value.spends[1 + |m.spends|] == b
            && Flows(lib, r.value.spends) ==
               Ok(Flow(x + mf.spent + y + tf.spent, x + mf.created + y + tf.created, mf.reserved + tf.reserved))
  {
    hide *;
    var spends := [a] + m.spends + [b] + t.spends;
    AggregateSucceeds(lib, offer.signature, t.signatures);
    FourParts(a, m.spends, b, t.spends);
    BundleSerializes(spends, Aggregate(lib, [offer.signature] + t.signatures).value);
    SettleIs(lib, offer, m.settlement, t, [a], [b]);
    OneFlow(lib, a, Flow(x, x, 0));
    OneFlow(lib, b, Flow(y, y, 0));
    FourFlows(lib, [a], m.spends, [b], t.spends, Flow(x, x, 0), mf, Flow(y, y, 0), tf);
  }

  lemma FourParts(a: CoinSpend, b: seq<CoinSpend>, c: CoinSpend, d: seq<CoinSpend>)
    requires U64(a.coin.amount) && U64(c.coin.amount) && forall s :: s in b || s in d ==> U64(s.coin.amount)
    ensures var all := [a] + b + [c] + d;
            && |all| == 2 + |b| + |d| && all[0] == a && all[1 + |b|] == c
            && forall s :: s in all ==> U64(s.coin.amount)
  {
    hide U64;
  }

  lemma AggregateSucceeds(lib: Lib, first: Signature, rest: seq<Signature>)
    requires lib.isG2(first) && forall s :: s in rest ==> lib.isG2(s)
    ensures Aggregate(lib, [first] + rest).Ok?
  {}

  lemma SettleIs(lib: Lib, offer: Parsed, maker: seq<Settlement>, side: Side, a: seq<CoinSpend>, b: seq<CoinSpend>)
    requires Completion(lib, maker, side.groups) == Ok(a) && Completion(lib, side.settlement, offer.asked.groups) == Ok(b)
    requires Aggregate(lib, [offer.signature] + side.signatures).Ok?
    requires SerializeBundle(a + offer.spends + b + side.spends, Aggregate(lib, [offer.signature] + side.signatures).value).Ok?
    ensures var r := Settle(lib, offer, maker, side);
            r.Ok? && r.value.spends == a + offer.spends + b + side.spends
  {
    hide Completion, Aggregate, SerializeBundle;
  }

  lemma {:induction false} FourFlows(lib: Lib, a: seq<CoinSpend>, b: seq<CoinSpend>, c: seq<CoinSpend>, d: seq<CoinSpend>,
                  fa: Flow, fb: Flow, fc: Flow, fd: Flow)
    requires Flows(lib, a) == Ok(fa) && Flows(lib, b) == Ok(fb) && Flows(lib, c) == Ok(fc) && Flows(lib, d) == Ok(fd)
    ensures Flows(lib, a + b + c + d) ==
            Ok(Flow(fa.spent + fb.spent + fc.spent + fd.spent, fa.created + fb.created + fc.created + fd.created,
                    fa.reserved + fb.reserved + fc.reserved + fd.reserved))
  {
    hide Flows;
    FlowsConcat(lib, a, b, fa, fb);
    FlowsConcat(lib, a + b, c, AddFlow(fa, fb), fc);
    FlowsConcat(lib, a + b + c, d, AddFlow(AddFlow(fa, fb), fc), fd);
  }

  lemma TakeIs(lib: Lib, w: Wallet, offer: Parsed, inputs: seq<Input>, receive: seq<Requested>, changePh: Option<bytes>,
               fee: int, maker: seq<Settlement>, side: Side)
    requires VerifyMaker(lib, offer) == Ok(maker) && |maker| == 1 && ReceiveOk(receive, maker[0].amount)
    requires TakerSide(lib, w, offer, inputs, receive, changePh, fee) == Ok(side)
    ensures TakeOffer(lib, w, offer, inputs, receive, changePh, fee) == Settle(lib, offer, maker, side)
  {
    hide VerifyMaker, TakerSide, Settle;
    assert maker[1..] == [] && SumOf([]) == 0 && SumOf(maker) == maker[0].amount;
  }

  lemma TakerSideIs(lib: Lib, w: Wallet, offer: Parsed, p: Payment, inputs: seq<Input>, receive: seq<Requested>,
                    changePh: Option<bytes>, fee: int)
    requires offer.asked.payments == [p]
    ensures TakerSide(lib, w, offer, inputs, receive, changePh, fee) ==
            BuildSide(lib, w, [Leg(true, p.amount)], receive, inputs, changePh, fee)
  {
    hide BuildSide;
    assert [p][1..] == [] && PaymentsTotal([]) == 0 && PaymentsTotal([p]) == p.amount;
  }

  lemma {:induction false} WholeSideFlow(lib: Lib, w: Wallet, side: Side, sorted: seq<Owned>, amount: nat,
                                         changePh: bytes, change: nat, fee: nat)
    requires IsSide(lib, w, side, sorted, amount, changePh, change, fee)
    requires forall o :: o in sorted ==> o.coin.puzzleHash != ModHash(lib)
    ensures Flows(lib, side.spends) == Ok(Flow(Total(OwnedCoins(sorted)), amount + change, fee))
    ensures |side.spends| == |sorted| > 0 && forall s :: s in side.spends ==> exists o :: o in sorted && o.coin == s.coin
  {
    var conds := OriginConditions(lib, amount, changePh, change, fee, side.groups[0]);
    hide *;
    SideParts(lib, w, side, sorted, amount, changePh, change, fee);
    AssembledSorted(lib, w, side, sorted, conds);
    var n := |sorted|;
    SideFlow(lib, w, side, sorted, amount, changePh, change, fee, n);
    assert side.spends[..n] == side.spends && sorted[..n] == sorted;
    SpendsFromCoins(lib, w, side, sorted, conds);
  }

  lemma SpendsFromCoins(lib: Lib, w: Wallet, side: Side, sorted: seq<Owned>, conds: seq<Sexp>)
    requires Assembled(lib, w, side, sorted, conds) && |side.spends| == |sorted|
    ensures forall s :: s in side.spends ==> exists o :: o in sorted && o.coin == s.coin
  {
    hide *;
    forall s | s in side.spends
      ensures exists o :: o in sorted && o.coin == s.coin
    {
      var i :| 0 <= i < |sorted| && side.spends[i] == s;
      SpendInSide(lib, w, side, sorted, conds, i);
      assert sorted[i] in sorted;
    }
  }

  /** A take of a parsed offer whose two sides are known. */
  lemma {:induction false} SidesSettle(lib: Lib, mw: Wallet, tw: Wallet, offer: Parsed, m: Side, t: Side,
                                       ms: seq<Owned>, ts: seq<Owned>,
                    g: Sexp, mp: Payment, tp: Payment, mChange: bytes, mc: nat, mFee: nat, tChange: bytes, tc: nat, tFee: nat)
    requires Lawful(lib) && lib.isG2(offer.signature) && forall s :: s in t.signatures ==> lib.isG2(s)
    requires Pays(g, mp) && AsksFor(t, tp) && mp.amount >= 0 && tp.amount >= 0
    requires IsSide(lib, mw, m, ms, tp.amount, mChange, mc, mFee) && IsSide(lib, tw, t, ts, mp.amount, tChange, tc, tFee)
    requires Total(OwnedCoins(ms)) == tp.amount + mFee + mc && Total(OwnedCoins(ts)) == mp.amount + tFee + tc
    requires forall o :: o in ms || o in ts ==> o.coin.puzzleHash != ModHash(lib) && U64(o.coin.amount)
    requires U64(mp.amount) && U64(tp.amount) && |ms| + |ts| + 2 < Pow(256, 4)
    requires offer.spends == m.spends && offer.asked.groups == [g]
    ensures var r := Settle(lib, offer, m.settlement, t);
            && r.Ok? && |r.value.spends| == 2 + |ms| + |ts|
            && Created(lib, r.value.spends[0]) == Ok([Output(tp.ph, tp.amount)])
            && Created(lib, r.value.spends[1 + |ms|]) == Ok([Output(mp.ph, mp.amount)])
            && Flows(lib, r.value.spends).Ok? && Flows(lib, r.value.spends).value.reserved == mFee + tFee
            && Flows(lib, r.value.spends).value.spent == Flows(lib, r.value.spends).value.created + mFee + tFee
  {
    hide *;
    SideParts(lib, mw, m, ms, tp.amount, mChange, mc, mFee);
    SideParts(lib, tw, t, ts, mp.amount, tChange, tc, tFee);
    WholeSideFlow(lib, mw, m, ms, tp.amount, mChange, mc, mFee);
    WholeSideFlow(lib, tw, t, ts, mp.amount, tChange, tc, tFee);
    var mf := Flow(Total(OwnedCoins(ms)), tp.amount + mc, mFee);
    var tf := Flow(Total(OwnedCoins(ts)), mp.amount + tc, tFee);
    MatchedSides(m, t, g, mp, tp);
    var a, b := BothComplete(lib, m, t, g, mp, tp);
    SettleSucceeds(lib, offer, m, t, a, b, tp.amount, mp.amount, mf, tf);
  }

  lemma MatchedSides(m: Side, t: Side, g: Sexp, mp: Payment, tp: Payment)
    requires Pays(g, mp) && AsksFor(t, tp)
    requires |m.settlement| == 1 && m.settlement[0].amount == tp.amount
    requires |t.settlement| == 1 && t.settlement[0].amount == mp.amount
    ensures Matched(m, t, g, mp, tp)
  {
    hide AsksFor, Pays;
  }

  // ----- end to end -----

  /** An offer as it comes back from its own string. */
  lemma ParsedBack(lib: Lib, w: Wallet, offered: seq<Leg>, requested: seq<Requested>, inputs: seq<Input>,
                   changePh: Option<bytes>, fee: int, prefix: string, built: Built)
    returns (side: Side, offer: Parsed)
    requires Lawful(lib) && SignsG2(lib, w) && B.PlainHrp(prefix)
    requires MakeOffer(lib, w, offered, requested, inputs, changePh, fee, prefix) == Ok(built)
    requires |built.bundleBytes| < MAX_OFFER_BYTES
    requires forall i :: 0 <= i < |inputs| ==> inputs[i].coin.parent != ZeroParent()
    ensures LegsOk(offered, requested)
    ensures BuildSide(lib, w, offered, requested, inputs, changePh, fee) == Ok(side)
    ensures ParseOffer(lib, built.offerStr) == Ok(offer)
    ensures offer.spends == side.spends && lib.isG2(offer.signature)
    ensures offer.signature == lib.aggregate(side.signatures)
    ensures offer.asked == Asked(side.nonce, [Payment(requested[0].ph, requested[0].amount, [])], side.groups)
    ensures forall s :: s in side.spends ==> U64(s.coin.amount)
  {
    hide BuildSide, OfferOf, ParseOffer, U64, Aggregate, Lawful, SignsG2;
    side := BuildSide(lib, w, offered, requested, inputs, changePh, fee).value;
    var sig := SideSignature(lib, w, offered, requested, inputs, changePh, fee, side);
    MadeIsParsed(lib, w, offered, requested, inputs, changePh, fee, prefix, built, side, sig);
    OfferParts(lib, side, prefix, built, sig);
    offer := ParseOffer(lib, built.offerStr).value;
    MadeAmounts(DummySpend(lib, side.groups).value, side.spends, sig);
  }

  lemma MadeAmounts(dummy: CoinSpend, spends: seq<CoinSpend>, sig: Signature)
    requires SerializeBundle([dummy] + spends, sig).Ok?
    ensures forall s :: s in spends ==> U64(s.coin.amount)
  {
    hide SpendsBytes, U64;
    SerializedAmounts([dummy] + spends);
    forall s | s in spends
      ensures s in [dummy] + spends
    {}
  }

  lemma SideSignature(lib: Lib, w: Wallet, offered: seq<Leg>, requested: seq<Requested>, inputs: seq<Input>,
                      changePh: Option<bytes>, fee: int, side: Side)
    returns (sig: Signature)
    requires Lawful(lib) && SignsG2(lib, w)
    requires BuildSide(lib, w, offered, requested, inputs, changePh, fee) == Ok(side)
    ensures Aggregate(lib, side.signatures) == Ok(sig) && lib.isG2(sig) && sig == lib.aggregate(side.signatures)
  {
    var owned, sorted, conds, payment, amount, change := BuiltSide(lib, w, offered, requested, inputs, changePh, fee, side);
    hide BuildSide, Assembled, SignsG2, Group, Printable;
    SignedG2(lib, w, side, sorted, conds);
    sig := lib.aggregate(side.signatures);
  }

  /** Take of an offer from one coin, asking for the maker's payment by any group that pays it. */
  lemma TakeOfMade(lib: Lib, mw: Wallet, tw: Wallet, offered: seq<Leg>, requested: seq<Requested>, mInput: Input,
                   mChange: bytes, mFee: int, m: Side, g: Sexp, offer: Parsed,
                   tInputs: seq<Input>, receive: seq<Requested>, tChange: bytes, tFee: int)
    requires Lawful(lib) && SignsG2(lib, tw)
    requires BuildSide(lib, mw, offered, requested, [mInput], Some(mChange), mFee) == Ok(m)
    requires offer.spends == m.spends && lib.isG2(offer.signature) && LegsOk(offered, requested)
    requires var mp := Payment(requested[0].ph, requested[0].amount, []);
             Pays(g, mp) && offer.asked == Asked(m.nonce, [mp], [g])
    requires forall s :: s in m.spends ==> U64(s.coin.amount)
    requires GoodChange(lib, mChange) && GoodChange(lib, tChange) && mInput.coin.puzzleHash != ModHash(lib)
    requires forall i :: 0 <= i < |tInputs| ==> tInputs[i].coin.puzzleHash != ModHash(lib) && U64(tInputs[i].coin.amount)
    requires |tInputs| + 3 < Pow(256, 4) && U64(requested[0].amount)
    requires ReceiveOk(receive, offered[0].amount)
    requires BuildSide(lib, tw, [Leg(true, requested[0].amount)], receive, tInputs, Some(tChange), tFee).Ok?
    ensures var r := TakeOffer(lib, tw, offer, tInputs, receive, Some(tChange), tFee);
            r.Ok? && Settled(lib, r.value.spends, offered[0].amount, receive[0].ph, requested[0].amount, requested[0].ph, mFee + tFee)
  {
    hide *;
    LegHash(offered, requested);
    ReceivedLeg(receive, offered[0].amount);
    var t := BuildSide(lib, tw, [Leg(true, requested[0].amount)], receive, tInputs, Some(tChange), tFee).value;
    var ms, mc := SideFacts(lib, mw, offered, requested, [mInput], Some(mChange), mFee, m);
    var ts, tc := SideFacts(lib, tw, [Leg(true, requested[0].amount)], receive, tInputs, Some(tChange), tFee, t);
    var mp, tp := Payment(requested[0].ph, requested[0].amount, []), Payment(receive[0].ph, receive[0].amount, []);
    SideParts(lib, mw, m, ms, tp.amount, mChange, mc, mFee);
    SideParts(lib, tw, t, ts, mp.amount, tChange, tc, tFee);
    SignedG2(lib, tw, t, ts, OriginConditions(lib, mp.amount, tChange, tc, tFee, t.groups[0]));
    MakerChecked(lib, mw, offer, m, ms, mp, tp.amount, mChange, mc, mFee);
    TakerSideIs(lib, tw, offer, mp, tInputs, receive, Some(tChange), tFee);
    TakeIs(lib, tw, offer, tInputs, receive, Some(tChange), tFee, m.settlement, t);
    MakerAmount(lib, mw, m, ms, mInput, tp.amount, mChange, mc, mFee);
    forall o | o in ts
      ensures U64(o.coin.amount)
    {
      var i :| 0 <= i < |tInputs| && tInputs[i].coin == o.coin;
    }
    SidesSettle(lib, mw, tw, offer, m, t, ms, ts, g, mp, tp, mChange, mc, mFee, tChange, tc, tFee);
    SettledIs(lib, Settle(lib, offer, m.settlement, t).value.spends, tp, mp, mFee + tFee);
  }

  lemma ReceivedLeg(receive: seq<Requested>, offered: int)
    requires ReceiveOk(receive, offered)
    ensures |receive| == 1 && receive[0].amount == offered
  {}

  /** The maker's single coin covers what it offers. */
  lemma MakerAmount(lib: Lib, w: Wallet, m: Side, ms: seq<Owned>, input: Input, amount: nat, changePh: bytes, change: nat, fee: nat)
    requires IsSide(lib, w, m, ms, amount, changePh, change, fee) && |ms| == |m.spends| == 1
    requires forall s :: s in m.spends ==> U64(s.coin.amount)
    requires Total(OwnedCoins(ms)) == amount + fee + change
    ensures U64(amount) && forall o :: o in ms ==> U64(o.coin.amount)
  {
    hide OriginConditions, SpendsOf, Ours, Pow, ModHash, CoinId;
    SpendInSide(lib, w, m, ms, OriginConditions(lib, amount, changePh, change, fee, m.groups[0]), 0);
    assert m.spends[0] in m.spends && m.spends[0].coin == ms[0].coin;
    assert ms == [] + [ms[0]];
    OwnedCoinsAdd([], ms[0]);
    TotalAdd([], ms[0].coin);
    NoCoins();
    assert OwnedCoins([]) == [];
  }

  /** A bundle in which both parties are paid and nothing is lost: its first spend pays the taker, its
      third pays the maker, and the coins spent are worth the coins created and the fees reserved. */
  ghost predicate Settled(lib: Lib, spends: seq<CoinSpend>, toTaker: int, takerPh: bytes, toMaker: int, makerPh: bytes, fees: int) {
    && |spends| > 2
    && Created(lib, spends[0]) == Ok([Output(takerPh, toTaker)])
    && Created(lib, spends[2]) == Ok([Output(makerPh, toMaker)])
    && var f := Flows(lib, spends);
       f.Ok? && f.value.reserved == fees && f.value.spent == f.value.created + fees
  }

  lemma {:induction false} SettledIs(lib: Lib, spends: seq<CoinSpend>, tp: Payment, mp: Payment, fees: int)
    requires |spends| > 2 && Created(lib, spends[0]) == Ok([Output(tp.ph, tp.amount)])
    requires Created(lib, spends[2]) == Ok([Output(mp.ph, mp.amount)])
    requires Flows(lib, spends).Ok? && Flows(lib, spends).value.reserved == fees
    requires Flows(lib, spends).value.spent == Flows(lib, spends).value.created + fees
    ensures Settled(lib, spends, tp.amount, tp.ph, mp.amount, mp.ph, fees)
  {
    hide Created, Flows;
  }

  /** End to end: every offer made from one coin can be parsed from its own string and taken; the
      bundle pays the taker what was offered and the maker what was requested, loses nothing, and is
      handed out under the aggregate of the maker's signature and the taker's. */
  lemma EndToEnd(lib: Lib, mw: Wallet, tw: Wallet, offered: seq<Leg>, requested: seq<Requested>, mInput: Input,
                 mChange: bytes, mFee: int, prefix: string, built: Built,
                 tInputs: seq<Input>, receive: seq<Requested>, tChange: bytes, tFee: int)
    returns (offer: Parsed, taken: Taken, mSig: Signature, tOrder: seq<Input>, tSigs: seq<Signature>)
    requires Lawful(lib) && SignsG2(lib, mw) && SignsG2(lib, tw) && B.PlainHrp(prefix)
    requires MakeOffer(lib, mw, offered, requested, [mInput], Some(mChange), mFee, prefix) == Ok(built)
    requires |built.bundleBytes| < MAX_OFFER_BYTES && mInput.coin.parent != ZeroParent()
    requires GoodChange(lib, mChange) && GoodChange(lib, tChange) && mInput.coin.puzzleHash != ModHash(lib)
    requires forall i :: 0 <= i < |tInputs| ==> tInputs[i].coin.puzzleHash != ModHash(lib) && U64(tInputs[i].coin.amount)
    requires |tInputs| + 3 < Pow(256, 4)
    requires LegsOk(offered, requested) && U64(requested[0].amount) && ReceiveOk(receive, offered[0].amount)
    requires BuildSide(lib, tw, [Leg(true, requested[0].amount)], receive, tInputs, Some(tChange), tFee).Ok?
    ensures ParseOffer(lib, built.offerStr) == Ok(offer)
    ensures TakeOffer(lib, tw, offer, tInputs, receive, Some(tChange), tFee) == Ok(taken)
    ensures Settled(lib, taken.spends, offered[0].amount, receive[0].ph, requested[0].amount, requested[0].ph, mFee + tFee)
    ensures SpentInOrder(lib, mw, [mInput], [mInput], offer.spends, [mSig]) && offer.signature == lib.aggregate([mSig])
    ensures HandsOut(lib, tw, offer, tInputs, taken, tOrder, tSigs)
  {
    hide *;
    var m, parsed := ParsedBack(lib, mw, offered, requested, [mInput], Some(mChange), mFee, prefix, built);
    offer := parsed;
    MadePays(lib, mw, offered, requested, mInput, mChange, mFee, m);
    TakeOfMade(lib, mw, tw, offered, requested, mInput, mChange, mFee, m, m.groups[0], offer, tInputs, receive, tChange, tFee);
    taken := TakeOffer(lib, tw, offer, tInputs, receive, Some(tChange), tFee).value;
    var order := SideInOrder(lib, mw, offered, requested, [mInput], Some(mChange), mFee, m);
    mSig := OneInOrder(lib, mw, mInput, order, m.spends, m.signatures);
    ParsedTied(lib, built.offerStr, offer);
    tOrder, tSigs := TakeBytes(lib, tw, offer, tInputs, receive, Some(tChange), tFee, taken);
  }

  lemma OneInOrder(lib: Lib, w: Wallet, inp: Input, order: seq<Input>, spends: seq<CoinSpend>, sigs: seq<Signature>)
    returns (sig: Signature)
    requires SpentInOrder(lib, w, [inp], order, spends, sigs)
    ensures sigs == [sig] && SpentInOrder(lib, w, [inp], [inp], spends, [sig])
  {
    hide SpentBy, Ascending;
    assert |multiset(order)| == |order| && |multiset([inp])| == 1;
    assert order[0] in multiset([inp]);
    assert order == [inp] && sigs == [sigs[0]];
    sig := sigs[0];
  }

  lemma MadePays(lib: Lib, w: Wallet, offered: seq<Leg>, requested: seq<Requested>, input: Input, changePh: bytes,
                 fee: int, m: Side)
    requires BuildSide(lib, w, offered, requested, [input], Some(changePh), fee) == Ok(m) && LegsOk(offered, requested)
    requires GoodChange(lib, changePh) && input.coin.puzzleHash != ModHash(lib)
    ensures m.groups == [m.groups[0]] && Pays(m.groups[0], Payment(requested[0].ph, requested[0].amount, []))
  {
    hide *;
    LegHash(offered, requested);
    var ms, mc := SideFacts(lib, w, offered, requested, [input], Some(changePh), fee, m);
    SidePays(m, Payment(requested[0].ph, requested[0].amount, []));
  }

  /** With two or more maker inputs the same offer parses, and every take of it is refused: the
      consolidating spends create no settlement output. */
  lemma ManyInputsRefused(lib: Lib, mw: Wallet, tw: Wallet, offered: seq<Leg>, requested: seq<Requested>, mInputs: seq<Input>,
                          mChange: bytes, mFee: int, prefix: string, built: Built,
                          tInputs: seq<Input>, receive: seq<Requested>, tChange: Option<bytes>, tFee: int)
    requires Lawful(lib) && SignsG2(lib, mw) && B.PlainHrp(prefix) && |mInputs| > 1
    requires MakeOffer(lib, mw, offered, requested, mInputs, Some(mChange), mFee, prefix) == Ok(built)
    requires |built.bundleBytes| < MAX_OFFER_BYTES && GoodChange(lib, mChange)
    requires forall i :: 0 <= i < |mInputs| ==>
               mInputs[i].coin.parent != ZeroParent() && mInputs[i].coin.puzzleHash != ModHash(lib)
    ensures var offer := ParseOffer(lib, built.offerStr);
            offer.Ok? && TakeOffer(lib, tw, offer.value, tInputs, receive, tChange, tFee) == Err
  {
    hide *;
    MadeLegs(lib, mw, offered, requested, mInputs, Some(mChange), mFee, prefix);
    LegHash(offered, requested);
    var m, offer := ParsedBack(lib, mw, offered, requested, mInputs, Some(mChange), mFee, prefix, built);
    var ms, mc := SideFacts(lib, mw, offered, requested, mInputs, Some(mChange), mFee, m);
    MakerChecked(lib, mw, offer, m, ms, Payment(requested[0].ph, requested[0].amount, []), offered[0].amount, mChange, mc, mFee);
    UnverifiedIsRefused(lib, tw, offer, tInputs, receive, tChange, tFee);
  }

  lemma MadeLegs(lib: Lib, w: Wallet, offered: seq<Leg>, requested: seq<Requested>, inputs: seq<Input>,
                 changePh: Option<bytes>, fee: int, prefix: string)
    requires MakeOffer(lib, w, offered, requested, inputs, changePh, fee, prefix).Ok?
    ensures LegsOk(offered, requested)
  {
    hide OfferOf, CheckInputs, SideOf;
  }

  lemma UnverifiedIsRefused(lib: Lib, w: Wallet, offer: Parsed, inputs: seq<Input>, receive: seq<Requested>,
                            changePh: Option<bytes>, fee: int)
    requires VerifyMaker(lib, offer) == Err
    ensures TakeOffer(lib, w, offer, inputs, receive, changePh, fee) == Err
  {
    hide VerifyMaker;
  }

  // ----- what any take that returns means for the taker -----

  /** The taker's own spends: the first pays the settlement puzzle what is asked for and returns the
      change, the others pay nothing; together they spend the inputs and reserve the fee. */
  ghost predicate Charged(lib: Lib, mine: seq<CoinSpend>, inputs: seq<Input>, asked: int, changePh: bytes, fee: int) {
    var change := Total(InputCoins(inputs)) - asked - fee;
    && |mine| == |inputs| > 0 && asked > 0 && change >= 0
    && Created(lib, mine[0]) == Ok(OriginOutputs(lib, asked, changePh, change))
    && (forall k :: 0 < k < |mine| ==> Created(lib, mine[k]) == Ok([]))
    && Flows(lib, mine) == Ok(Flow(Total(InputCoins(inputs)), asked + change, fee))
  }

  /** Whoever made the offer: in every take that returns, the first completion pays the taker exactly the
      leg it receives, and the taker's own spends give up exactly what was asked for and the fee. */
  lemma TakerProtected(lib: Lib, w: Wallet, offer: Parsed, inputs: seq<Input>, receive: seq<Requested>,
                       changePh: bytes, fee: int, taken: Taken)
    requires TakeOffer(lib, w, offer, inputs, receive, Some(changePh), fee) == Ok(taken)
    requires GoodChange(lib, changePh) && forall i :: 0 <= i < |inputs| ==> inputs[i].coin.puzzleHash != ModHash(lib)
    ensures |taken.spends| == 2 + |offer.spends| + |inputs| && |receive| == 1
    ensures Created(lib, taken.spends[0]) == Ok([Output(receive[0].ph, receive[0].amount)])
    ensures Charged(lib, taken.spends[2 + |offer.spends|..], inputs, PaymentsTotal(offer.asked.payments), changePh, fee)
  {
    hide *;
    var asked := PaymentsTotal(offer.asked.payments);
    var m, t, side := TakeSettles(lib, w, offer, inputs, receive, Some(changePh), fee, taken);
    TakerSideOf(lib, w, offer, inputs, receive, Some(changePh), fee);
    var sorted, change := SideFacts(lib, w, [Leg(true, asked)], receive, inputs, Some(changePh), fee, side);
    LegHash([Leg(true, asked)], receive);
    SidePays(side, Payment(receive[0].ph, receive[0].amount, []));
    assert side.groups == [side.groups[0]];
    SettlementPays(lib, m, side.groups[0], Payment(receive[0].ph, receive[0].amount, []), taken.spends[0]);
    SideCharges(lib, w, [Leg(true, asked)], receive, inputs, changePh, fee, side, sorted, change);
  }

  lemma SettlementPays(lib: Lib, m: Settlement, g: Sexp, p: Payment, s: CoinSpend)
    requires m.amount >= 0 && s.coin == CoinOf(lib, m) && SettlementGroups(s) == Ok([g]) && Pays(g, p)
    ensures Created(lib, s) == Ok([Output(p.ph, p.amount)])
  {
    hide SettlementGroups, GroupOutputs, GroupsTotal, Printable, ModHash;
  }

  lemma SideCharges(lib: Lib, w: Wallet, legs: seq<Leg>, receive: seq<Requested>, inputs: seq<Input>, changePh: bytes, fee: int,
                    side: Side, sorted: seq<Owned>, change: nat)
    requires BuildSide(lib, w, legs, receive, inputs, Some(changePh), fee) == Ok(side) && LegsOk(legs, receive) && fee >= 0
    requires IsSide(lib, w, side, sorted, legs[0].amount, changePh, change, fee) && |sorted| == |inputs|
    requires forall o :: o in sorted ==> o.coin.puzzleHash != ModHash(lib)
    requires Total(OwnedCoins(sorted)) == Total(InputCoins(inputs)) == legs[0].amount + fee + change
    ensures Charged(lib, side.spends, inputs, legs[0].amount, changePh, fee)
  {
    hide *;
    LegHash(legs, receive);
    var amount := legs[0].amount;
    WholeSideFlow(lib, w, side, sorted, amount, changePh, change, fee);
    forall k | 0 <= k < |side.spends|
      ensures Created(lib, side.spends[k]) == Ok(if k == 0 then OriginOutputs(lib, amount, changePh, change) else [])
    {
      SideCreates(lib, w, side, sorted, amount, changePh, change, fee, k);
    }
    ChargedIs(lib, side.spends, inputs, amount, changePh, change, fee);
  }

  lemma SideCreates(lib: Lib, w: Wallet, side: Side, sorted: seq<Owned>, amount: nat, changePh: bytes, change: nat,
                    fee: nat, k: nat)
    requires IsSide(lib, w, side, sorted, amount, changePh, change, fee) && k < |side.spends| == |sorted|
    requires forall o :: o in sorted ==> o.coin.puzzleHash != ModHash(lib)
    ensures Created(lib, side.spends[k]) == Ok(if k == 0 then OriginOutputs(lib, amount, changePh, change) else [])
  {
    hide *;
    SideParts(lib, w, side, sorted, amount, changePh, change, fee);
    var conds := OriginConditions(lib, amount, changePh, change, fee, side.groups[0]);
    SpendInSide(lib, w, side, sorted, conds, k);
    assert sorted[k] in sorted;
    if k == 0 {
      var id := CoinId(lib.h, sorted[0].coin);
      OriginReads(lib, id, amount, changePh, change, fee, side.groups[0]);
      FirstSays(conds);
      ReadsOutputs(lib, id, conds, OriginOutputs(lib, amount, changePh, change), [AnnouncementId(lib, side.groups[0])],
                   [Settlement(id, amount)], fee);
      StandardCreates(lib, side.spends[0], conds, OriginOutputs(lib, amount, changePh, change));
    } else {
      OthersSay(conds, k);
      NoConditions();
      StandardCreates(lib, side.spends[k], [], []);
    }
  }

  lemma {:induction false} ReadsOutputs(lib: Lib, id: Digest, conds: seq<Sexp>, outs: seq<Output>, ids: seq<bytes>,
                     settlement: seq<Settlement>, fee: int)
    requires Reads(lib, id, conds, Reading(outs, ids, settlement, fee))
    ensures CreateCoinOutputs(conds) == Ok(outs)
  {
    hide CreateCoinOutputs;
  }

  lemma {:induction false} StandardCreates(lib: Lib, s: CoinSpend, conds: seq<Sexp>, outs: seq<Output>)
    requires s.coin.puzzleHash != ModHash(lib) && ParseConditions(s.solution) == Ok(conds) && CreateCoinOutputs(conds) == Ok(outs)
    ensures Created(lib, s) == Ok(outs)
  {
    hide ParseConditions, CreateCoinOutputs, ModHash;
  }

  lemma {:induction false} ChargedIs(lib: Lib, mine: seq<CoinSpend>, inputs: seq<Input>, asked: nat, changePh: bytes,
                                     change: nat, fee: nat)
    requires |mine| == |inputs| > 0 && asked > 0 && Total(InputCoins(inputs)) == asked + fee + change
    requires forall k :: 0 <= k < |mine| ==>
               Created(lib, mine[k]) == Ok(if k == 0 then OriginOutputs(lib, asked, changePh, change) else [])
    requires Flows(lib, mine) == Ok(Flow(asked + fee + change, asked + change, fee))
    ensures Charged(lib, mine, inputs, asked, changePh, fee)
  {
    hide Created, Flows, OriginOutputs, Total;
  }

  // ----- when a side can be built -----

  predicate Modest(amount: int) { 0 <= amount < Pow(256, 16) }

  lemma ModestPrints(v: nat)
    requires Modest(v)
    ensures Printable(Atom(IntToBytes(v)))
  {
    hide IntToBytes;
    IntToBytesLength(v, 16);
  }

  lemma SmallOpcode(op: nat)
    requires op < 256
    ensures Printable(Atom(IntToBytes(op)))
  {
    hide IntToBytes;
    assert Pow(256, 1) == 256;
    IntToBytesLength(op, 1);
  }

  lemma GroupPrints(nonce: bytes, p: Payment)
    requires |nonce| == 32 && |p.ph| == 32 && Modest(p.amount) && p.memos == []
    ensures NotarizedGroup(nonce, [p]).Ok?
  {
    ModestPrints(p.amount);
    var x := PaymentSexp(p);
    assert ListOf([]) == NIL && Printable(NIL);
    ListPrintable([Atom(p.ph), Atom(IntToBytes(p.amount)), ListOf(p.memos)]);
    ListPrintable([x]);
    assert seq(1, i requires 0 <= i < 1 => PaymentSexp([p][i])) == [x];
    hide ListOf, PaymentSexp, IntToBytes;
    assert [p][0].amount >= 0;
    assert NoDebts([p]);
    assert Printable(Atom(nonce));
    assert Group(nonce, [p]) == Pair(Atom(nonce), ListOf([x]));
    assert Printable(ListOf([x]));
    assert Printable(Group(nonce, [p]));
  }

  lemma CoinPrints(ph: bytes, amount: nat)
    requires |ph| == 32 && Modest(amount)
    ensures Printable(CreateCoin(ph, amount))
  {
    ModestPrints(amount);
    SmallOpcode(CREATE_COIN);
    hide IntToBytes;
    ListPrintable([Atom(IntToBytes(CREATE_COIN)), Atom(ph), Atom(IntToBytes(amount))]);
  }

  lemma FeePrints(fee: nat)
    requires Modest(fee)
    ensures Printable(ReserveFee(fee))
  {
    ModestPrints(fee);
    SmallOpcode(RESERVE_FEE);
    hide IntToBytes;
    ListPrintable([Atom(IntToBytes(RESERVE_FEE)), Atom(IntToBytes(fee))]);
  }

  lemma AnnouncementPrints(lib: Lib, message: Digest)
    ensures Printable(AssertAnnouncement(lib.h, ModHash(lib), message))
  {
    SmallOpcode(ASSERT_PUZZLE_ANNOUNCEMENT);
    hide IntToBytes, ModHash;
    ListPrintable([Atom(IntToBytes(ASSERT_PUZZLE_ANNOUNCEMENT)), Atom(lib.h(ModHash(lib) + message))]);
  }

  lemma OriginPrints(lib: Lib, amount: nat, changePh: bytes, change: nat, fee: nat, group: Sexp)
    requires |changePh| == 32 && Modest(amount) && Modest(change) && Modest(fee)
    ensures forall c :: c in OriginConditions(lib, amount, changePh, change, fee, group) ==> Printable(c)
  {
    CoinPrints(ModHash(lib), amount);
    CoinPrints(changePh, change);
    FeePrints(fee);
    AnnouncementPrints(lib, TreeHash(lib.h, group));
    hide CreateCoin, ReserveFee, AssertAnnouncement, ModHash, Printable, TreeHash;
  }

  lemma SolutionPrints(o: Owned, conds: seq<Sexp>)
    requires forall c :: c in conds ==> Printable(c)
    ensures SpendOf(o, conds).Ok?
  {
    ListPrintable(conds);
    var q := Quote(ListOf(conds));
    assert Printable(q);
    ListPrintable([NIL, q, NIL]);
    hide Print, ListOf;
  }

  lemma {:induction false} SpendsPrint(owned: seq<Owned>, conds: seq<Sexp>)
    requires forall c :: c in conds ==> Printable(c)
    ensures SpendsOf(owned, conds).Ok?
    decreases |owned|
  {
    hide SpendOf, Printable;
    if owned != [] {
      var n := |owned| - 1;
      SpendsPrint(owned[..n], conds);
      SolutionPrints(owned[n], if n == 0 then conds else []);
    }
  }

  /** A coin the wallet can spend at that index. */
  predicate Spendable(lib: Lib, w: Wallet, inp: Input) {
    && |inp.coin.parent| == 32 && inp.coin.amount > 0
    && (TreeHash(lib.h, w.standard(inp.index)) == inp.coin.puzzleHash || TreeHash(lib.h, w.legacy(inp.index)) == inp.coin.puzzleHash)
  }

  lemma {:induction false} InputsChecked(lib: Lib, w: Wallet, inputs: seq<Input>)
    ensures CheckInputs(lib, w, inputs).Ok? <==> forall i :: 0 <= i < |inputs| ==> Spendable(lib, w, inputs[i])
    decreases |inputs|
  {
    if inputs != [] {
      var n := |inputs| - 1;
      InputsChecked(lib, w, inputs[..n]);
      assert CheckInput(lib, w, inputs[n]).Ok? <==> Spendable(lib, w, inputs[n]);
      hide CheckInput, Spendable;
      assert forall i :: 0 <= i < n ==> inputs[..n][i] == inputs[i];
    }
  }

  /** A side is built exactly when the fee is not negative, there is one native leg each way, every
      input is a coin of the wallet, and the inputs cover the offered amount and the fee. */
  lemma {:induction false} SideBuilds(lib: Lib, w: Wallet, offered: seq<Leg>, requested: seq<Requested>,
                                      inputs: seq<Input>, changePh: bytes, fee: int)
    requires |changePh| == 32 && Modest(Total(InputCoins(inputs)))
    requires LegsOk(offered, requested) ==> Modest(requested[0].amount)
    ensures BuildSide(lib, w, offered, requested, inputs, Some(changePh), fee).Ok? <==>
            && fee >= 0
            && |offered| == 1 && offered[0].native && offered[0].amount > 0
            && |requested| == 1 && requested[0].native && |requested[0].ph| == 32 && requested[0].amount > 0
            && (forall i :: 0 <= i < |inputs| ==> Spendable(lib, w, inputs[i]))
            && Total(InputCoins(inputs)) >= offered[0].amount + fee
  {
    InputsChecked(lib, w, inputs);
    hide CheckInputs, SideOf, Total, Spendable;
    if fee >= 0 && LegsOk(offered, requested) && CheckInputs(lib, w, inputs).Ok? {
      var owned := CheckInputs(lib, w, inputs).value;
      CheckedAt(lib, w, inputs, owned);
      SameCoins(owned, inputs);
      NoCoins();
      assert owned == [] ==> Total(OwnedCoins(owned)) == 0;
      if Total(OwnedCoins(owned)) >= offered[0].amount + fee {
        SideOfSucceeds(lib, w, offered[0].amount, Payment(requested[0].ph, requested[0].amount, []), owned, changePh, fee);
      }
    }
  }

  lemma SideOfSucceeds(lib: Lib, w: Wallet, amount: nat, payment: Payment, owned: seq<Owned>, changePh: bytes, fee: nat)
    requires owned != [] && amount + fee <= Total(OwnedCoins(owned))
    requires |changePh| == 32 && |payment.ph| == 32 && payment.memos == []
    requires Modest(payment.amount) && Modest(Total(OwnedCoins(owned)))
    ensures SideOf(lib, w, amount, payment, owned, changePh, fee).Ok?
  {
    var nonce := OfferNonce(lib.h, OwnedCoins(owned));
    GroupPrints(nonce, payment);
    var group := NotarizedGroup(nonce, [payment]).value;
    var change := Total(OwnedCoins(owned)) - amount - fee;
    OriginPrints(lib, amount, changePh, change, fee, group);
    hide NotarizedGroup, SpendsOf, OriginConditions, Total, OfferNonce, SortBy, Signatures;
    SpendsPrint(SortBy(owned, OwnedKey(lib.h)), OriginConditions(lib, amount, changePh, change, fee, group));
  }

  /** Every side that can be built from amounts below 2^64 makes an offer. */
  lemma BuiltSideMakesOffer(lib: Lib, w: Wallet, offered: seq<Leg>, requested: seq<Requested>, inputs: seq<Input>,
                            changePh: Option<bytes>, fee: int, prefix: string)
    requires SignsG2(lib, w) && BuildSide(lib, w, offered, requested, inputs, changePh, fee).Ok?
    requires |inputs| + 1 < Pow(256, 4) && forall i :: 0 <= i < |inputs| ==> U64(inputs[i].coin.amount)
    ensures MakeOffer(lib, w, offered, requested, inputs, changePh, fee, prefix).Ok?
  {
    hide *;
    var side := BuildSide(lib, w, offered, requested, inputs, changePh, fee).value;
    var owned, sorted, conds, payment, amount, change := BuiltSide(lib, w, offered, requested, inputs, changePh, fee, side);
    SideMakesOffer(lib, w, owned, sorted, conds, side, side.groups[0], prefix);
    OfferFollows(lib, w, offered, requested, inputs, changePh, fee, prefix, side);
  }

  /** A side whose coins have amounts below 2^64 makes an offer with any group that can be printed. */
  lemma {:induction false} SideMakesOffer(lib: Lib, w: Wallet, owned: seq<Owned>, sorted: seq<Owned>, conds: seq<Sexp>, side: Side,
                       g: Sexp, prefix: string)
    requires SignsG2(lib, w) && Printable(g) && sorted == SortBy(owned, OwnedKey(lib.h))
    requires Assembled(lib, w, side, sorted, conds)
    requires |owned| + 1 < Pow(256, 4) && forall o :: o in owned ==> U64(o.coin.amount)
    ensures OfferOf(lib, side.(groups := [g]), prefix).Ok?
  {
    hide *;
    DummySucceeds(lib, [g]);
    SignedG2(lib, w, side, sorted, conds);
    AggregateAll(lib, side.signatures);
    AssembledSorted(lib, w, side, sorted, conds);
    SpendsFromCoins(lib, w, side, sorted, conds);
    var dummy := DummySpend(lib, [g]).value;
    var all := [dummy] + side.spends;
    forall s | s in all
      ensures U64(s.coin.amount)
    {
      if s != dummy {
        assert s in side.spends;
        var o :| o in sorted && o.coin == s.coin;
        SortedOurs(lib, owned, o);
      }
    }
    BundleSerializes(all, Aggregate(lib, side.signatures).value);
    OfferSucceeds(lib, side.(groups := [g]), prefix);
  }

  lemma DummySucceeds(lib: Lib, groups: seq<Sexp>)
    requires |groups| == 1 && Printable(groups[0])
    ensures DummySpend(lib, groups).Ok? && U64(DummySpend(lib, groups).value.coin.amount)
  {
    ListPrintable(groups);
    PowPositive(256, 8);
    hide Print, ListOf, Printable, Pow, ModHash;
  }

  lemma AggregateAll(lib: Lib, sigs: seq<Signature>)
    requires sigs != [] && forall s :: s in sigs ==> lib.isG2(s)
    ensures Aggregate(lib, sigs).Ok?
  {}

  lemma OfferSucceeds(lib: Lib, side: Side, prefix: string)
    requires DummySpend(lib, side.groups).Ok? && Aggregate(lib, side.signatures).Ok?
    requires SerializeBundle([DummySpend(lib, side.groups).value] + side.spends, Aggregate(lib, side.signatures).value).Ok?
    ensures OfferOf(lib, side, prefix).Ok?
  {
    hide DummySpend, Aggregate, SerializeBundle, B.Encode, Compress;
  }

  lemma OfferFollows(lib: Lib, w: Wallet, offered: seq<Leg>, requested: seq<Requested>, inputs: seq<Input>,
                     changePh: Option<bytes>, fee: int, prefix: string, side: Side)
    requires BuildSide(lib, w, offered, requested, inputs, changePh, fee) == Ok(side) && |side.groups| == 1
    requires OfferOf(lib, side.(groups := [side.groups[0]]), prefix).Ok?
    ensures MakeOffer(lib, w, offered, requested, inputs, changePh, fee, prefix).Ok?
  {
    hide BuildSide, OfferOf;
    assert side.groups == [side.groups[0]];
    assert side.(groups := [side.groups[0]]) == side;
  }
}
