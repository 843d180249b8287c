/** Which announcements the bundle of a take makes: exactly those of the groups of both sides. So a
    maker's assertion is met when the offer asks by the canonical group, and is not met when it asks
    by another group that reads as the same payments. */
module OfferAnnouncements {
  import opened Wrappers
  import opened Radix
  import opened Bytes
  import opened Clvm
  import opened TreeHashing
  import opened Streamable
  import opened Sorting
  import opened Offer
  import opened OfferString
  import opened OfferMade
  import opened OfferTake
  import opened OfferSettlement
  import B = Bech32mText

  // ----- what a settlement announces -----

  lemma {:induction false} IdsOfGroups(lib: Lib, groups: seq<Sexp>, id: bytes)
    ensures id in GroupIds(lib, groups) <==> exists g :: g in groups && AnnouncementId(lib, g) == id
    decreases |groups|
  {
    hide AnnouncementId;
    if groups != [] {
      IdsOfGroups(lib, groups[1..], id);
      assert groups == [groups[0]] + groups[1..];
    }
  }

  /** No spend stands at the settlement puzzle hash. */
  ghost predicate Ordinary(lib: Lib, spends: seq<CoinSpend>) {
    forall s :: s in spends ==> s.coin.puzzleHash != ModHash(lib)
  }

  lemma {:induction false} CompletionAnnounces(lib: Lib, s: CoinSpend, t: Settlement, groups: seq<Sexp>)
    requires t.amount >= 0 && s.coin == CoinOf(lib, t) && SettlementGroups(s) == Ok(groups)
    ensures Announced(lib, s) == Ok(GroupIds(lib, groups))
  {
    hide GroupIds, SettlementGroups, ModHash;
  }

  lemma OrdinaryAnnounces(lib: Lib, s: CoinSpend)
    requires s.coin.puzzleHash != ModHash(lib)
    ensures Announced(lib, s) == Ok([])
  {
    hide GroupIds, SettlementGroups, ModHash;
  }

  /** The spends of a settled bundle: two completions around the spends of both parties. */
  ghost predicate Rounded(spends: seq<CoinSpend>, a: CoinSpend, maker: seq<CoinSpend>, b: CoinSpend, taker: seq<CoinSpend>) {
    spends == [a] + maker + [b] + taker
  }

  lemma RoundedAnnounces(lib: Lib, spends: seq<CoinSpend>, a: CoinSpend, maker: seq<CoinSpend>, b: CoinSpend,
                         taker: seq<CoinSpend>, x: seq<bytes>, y: seq<bytes>, id: bytes)
    requires Rounded(spends, a, maker, b, taker) && Announced(lib, a) == Ok(x) && Announced(lib, b) == Ok(y)
    ensures id in x || id in y ==> AnnouncedIn(lib, id, spends)
    ensures Ordinary(lib, maker) && Ordinary(lib, taker) && AnnouncedIn(lib, id, spends) ==> id in x || id in y
  {
    hide Announced, ModHash;
    assert a in spends && b in spends;
    if Ordinary(lib, maker) && Ordinary(lib, taker) && AnnouncedIn(lib, id, spends) {
      var s :| s in spends && Announced(lib, s).Ok? && id in Announced(lib, s).value;
      if s != a && s != b {
        assert s in maker || s in taker;
        OrdinaryAnnounces(lib, s);
      }
    }
  }

  lemma TakeRounded(lib: Lib, w: Wallet, offer: Parsed, inputs: seq<Input>, receive: seq<Requested>,
                    changePh: Option<bytes>, fee: int, taken: Taken, side: Side)
    returns (a: CoinSpend, b: CoinSpend)
    requires TakeOffer(lib, w, offer, inputs, receive, changePh, fee) == Ok(taken)
    requires TakerSide(lib, w, offer, inputs, receive, changePh, fee) == Ok(side)
    ensures Rounded(taken.spends, a, offer.spends, b, side.spends)
    ensures Announced(lib, a) == Ok(GroupIds(lib, side.groups))
    ensures Announced(lib, b) == Ok(GroupIds(lib, offer.asked.groups))
  {
    hide *;
    var m, t, same := TakeSettles(lib, w, offer, inputs, receive, changePh, fee, taken);
    var n := |offer.spends|;
    a, b := taken.spends[0], taken.spends[1 + n];
    InFour(taken.spends, a, offer.spends, b, side.spends);
    CompletionAnnounces(lib, a, m, side.groups);
    CompletionAnnounces(lib, b, t, offer.asked.groups);
  }

  lemma InFour(spends: seq<CoinSpend>, a: CoinSpend, maker: seq<CoinSpend>, b: CoinSpend, taker: seq<CoinSpend>)
    requires |spends| == 2 + |maker| + |taker| && spends[0] == a && spends[1 + |maker|] == b
    requires spends[1..1 + |maker|] == maker && spends[2 + |maker|..] == taker
    ensures Rounded(spends, a, maker, b, taker)
  {
    var n := |maker|;
    assert spends == spends[..1] + spends[1..1 + n] + spends[1 + n..2 + n] + spends[2 + n..];
  }

  // ----- which group an announcement names -----

  /** Everything that is hashed for the announcement of a group. */
  function Hashed(lib: Lib, g: Sexp): set<bytes> {
    {ModHash(lib) + TreeHash(lib.h, g)} + Inputs(lib.h, g)
  }

  /** The hash does not collide between `g` and any of the groups. */
  ghost predicate Tells(lib: Lib, g: Sexp, groups: seq<Sexp>) {
    forall x :: x in groups ==> CollisionFree(lib.h, Hashed(lib, g) + Hashed(lib, x))
  }

  lemma IdNamesGroup(lib: Lib, g: Sexp, x: Sexp)
    requires CollisionFree(lib.h, Hashed(lib, g) + Hashed(lib, x)) && AnnouncementId(lib, g) == AnnouncementId(lib, x)
    ensures g == x
  {
    hide TreeHash, Inputs;
    var p, q := ModHash(lib) + TreeHash(lib.h, g), ModHash(lib) + TreeHash(lib.h, x);
    assert p == q;
    assert p[32..] == TreeHash(lib.h, g) && q[32..] == TreeHash(lib.h, x);
    TreeHashInjective(lib.h, g, x);
  }

  lemma {:induction false} IdAmong(lib: Lib, g: Sexp, groups: seq<Sexp>)
    ensures g in groups ==> AnnouncementId(lib, g) in GroupIds(lib, groups)
    ensures Tells(lib, g, groups) && AnnouncementId(lib, g) in GroupIds(lib, groups) ==> g in groups
  {
    hide AnnouncementId, Hashed, CollisionFree, GroupIds;
    IdsOfGroups(lib, groups, AnnouncementId(lib, g));
    if Tells(lib, g, groups) && AnnouncementId(lib, g) in GroupIds(lib, groups) {
      var x :| x in groups && AnnouncementId(lib, x) == AnnouncementId(lib, g);
      IdNamesGroup(lib, g, x);
    }
  }

  lemma TellsBoth(lib: Lib, g: Sexp, xs: seq<Sexp>, ys: seq<Sexp>)
    requires Tells(lib, g, xs + ys)
    ensures Tells(lib, g, xs) && Tells(lib, g, ys)
  {
    hide Hashed, CollisionFree;
    assert forall x :: x in xs || x in ys ==> x in xs + ys;
  }

  /** In every take that returns, the announcement of a group of either side is made; and when the
      hash tells the groups apart and neither party spends a settlement coin of its own, the
      announcement of any other group is not. */
  lemma AnnouncedExactly(lib: Lib, w: Wallet, offer: Parsed, inputs: seq<Input>, receive: seq<Requested>,
                         changePh: Option<bytes>, fee: int, taken: Taken, side: Side, g: Sexp)
    requires TakeOffer(lib, w, offer, inputs, receive, changePh, fee) == Ok(taken)
    requires TakerSide(lib, w, offer, inputs, receive, changePh, fee) == Ok(side)
    ensures g in offer.asked.groups || g in side.groups ==> AnnouncedIn(lib, AnnouncementId(lib, g), taken.spends)
    ensures Ordinary(lib, offer.spends) && OrdinaryInputs(lib, inputs) && Tells(lib, g, offer.asked.groups + side.groups) ==>
              (AnnouncedIn(lib, AnnouncementId(lib, g), taken.spends) <==> g in offer.asked.groups || g in side.groups)
  {
    hide *;
    var a, b := TakeRounded(lib, w, offer, inputs, receive, changePh, fee, taken, side);
    var id, x, y := AnnouncementId(lib, g), GroupIds(lib, side.groups), GroupIds(lib, offer.asked.groups);
    RoundedAnnounces(lib, taken.spends, a, offer.spends, b, side.spends, x, y, id);
    IdAmong(lib, g, side.groups);
    IdAmong(lib, g, offer.asked.groups);
    if OrdinaryInputs(lib, inputs) {
      TakerOrdinary(lib, w, offer, inputs, receive, changePh, fee, side);
    }
    if Tells(lib, g, offer.asked.groups + side.groups) {
      TellsBoth(lib, g, offer.asked.groups, side.groups);
    }
  }

  /** No input stands at the settlement puzzle hash. */
  ghost predicate OrdinaryInputs(lib: Lib, inputs: seq<Input>) {
    forall i :: 0 <= i < |inputs| ==> inputs[i].coin.puzzleHash != ModHash(lib)
  }

  lemma TakerOrdinary(lib: Lib, w: Wallet, offer: Parsed, inputs: seq<Input>, receive: seq<Requested>,
                      changePh: Option<bytes>, fee: int, side: Side)
    requires TakerSide(lib, w, offer, inputs, receive, changePh, fee) == Ok(side) && OrdinaryInputs(lib, inputs)
    ensures Ordinary(lib, side.spends)
  {
    hide BuildSide, ModHash, Assembled, OriginConditions, SortBy, Group, Printable, NoDebts;
    var legs := [Leg(true, PaymentsTotal(offer.asked.payments))];
    var owned, sorted, conds, payment, amount, change := BuiltSide(lib, w, legs, receive, inputs, changePh, fee, side);
    AssembledSorted(lib, w, side, sorted, conds);
    SpendsFromCoins(lib, w, side, sorted, conds);
    forall s | s in side.spends
      ensures s.coin.puzzleHash != ModHash(lib)
    {
      var o :| o in sorted && o.coin == s.coin;
      SortedOurs(lib, owned, o);
      var i :| 0 <= i < |owned| && owned[i] == o;
      assert inputs[i].coin == o.coin;
    }
  }

  /** In every take that returns, the maker asserts the announcement of the canonical group of what it
      asks for; and exactly when that group is among the groups of the offer, as a caller can check
      before the take, does the bundle make it. Only a taker's nonce equal to the maker's adds a case. */
  lemma AnnouncementsMatch(lib: Lib, w: Wallet, offer: Parsed, inputs: seq<Input>, receive: seq<Requested>,
                           changePh: Option<bytes>, fee: int, taken: Taken, side: Side)
    requires TakeOffer(lib, w, offer, inputs, receive, changePh, fee) == Ok(taken)
    requires TakerSide(lib, w, offer, inputs, receive, changePh, fee) == Ok(side)
    ensures forall g :: g in side.groups ==> AnnouncedIn(lib, AnnouncementId(lib, g), taken.spends)
    ensures Asserted(offer.spends).Ok? && NotarizedGroup(offer.asked.nonce, offer.asked.payments).Ok?
    ensures var group := NotarizedGroup(offer.asked.nonce, offer.asked.payments).value;
            && AnnouncementId(lib, group) in Asserted(offer.spends).value
            && (group in offer.asked.groups ==> AnnouncedIn(lib, AnnouncementId(lib, group), taken.spends))
            && (Ordinary(lib, offer.spends) && OrdinaryInputs(lib, inputs) && offer.asked.nonce != side.nonce
                && Tells(lib, group, offer.asked.groups + side.groups) ==>
                  (AnnouncedIn(lib, AnnouncementId(lib, group), taken.spends) <==> group in offer.asked.groups))
  {
    hide *;
    MakerVerified(lib, w, offer, inputs, receive, changePh, fee, taken);
    forall g | g in side.groups
      ensures AnnouncedIn(lib, AnnouncementId(lib, g), taken.spends)
    {
      AnnouncedExactly(lib, w, offer, inputs, receive, changePh, fee, taken, side, g);
    }
    var group := NotarizedGroup(offer.asked.nonce, offer.asked.payments).value;
    AnnouncedExactly(lib, w, offer, inputs, receive, changePh, fee, taken, side, group);
    if offer.asked.nonce != side.nonce {
      NotTheTakers(lib, w, offer, inputs, receive, changePh, fee, side, group);
    }
  }

  lemma NotTheTakers(lib: Lib, w: Wallet, offer: Parsed, inputs: seq<Input>, receive: seq<Requested>,
                     changePh: Option<bytes>, fee: int, side: Side, group: Sexp)
    requires TakerSide(lib, w, offer, inputs, receive, changePh, fee) == Ok(side) && offer.asked.nonce != side.nonce
    requires NotarizedGroup(offer.asked.nonce, offer.asked.payments) == Ok(group)
    ensures group !in side.groups
  {
    hide BuildSide, ModHash, Assembled, OriginConditions, SortBy, Printable, ListOf, PaymentsTotal;
    var legs := [Leg(true, PaymentsTotal(offer.asked.payments))];
    var owned, sorted, conds, payment, amount, change := BuiltSide(lib, w, legs, receive, inputs, changePh, fee, side);
  }

  /** In every take of a made offer that returns, each announcement that a spend of either party asserts is
      made by a settlement spend of the same bundle. */
  lemma AssertionsMet(lib: Lib, mw: Wallet, tw: Wallet, offered: seq<Leg>, requested: seq<Requested>, mInputs: seq<Input>,
                      mChange: bytes, mFee: int, m: Side, offer: Parsed,
                      tInputs: seq<Input>, receive: seq<Requested>, tChange: bytes, tFee: int, t: Side, taken: Taken)
    requires BuildSide(lib, mw, offered, requested, mInputs, Some(mChange), mFee) == Ok(m) && LegsOk(offered, requested)
    requires offer.spends == m.spends
    requires offer.asked == Asked(m.nonce, [Payment(requested[0].ph, requested[0].amount, [])], m.groups)
    requires GoodChange(lib, mChange) && GoodChange(lib, tChange)
    requires forall i :: 0 <= i < |mInputs| ==> mInputs[i].coin.puzzleHash != ModHash(lib)
    requires forall i :: 0 <= i < |tInputs| ==> tInputs[i].coin.puzzleHash != ModHash(lib)
    requires TakerSide(lib, tw, offer, tInputs, receive, Some(tChange), tFee) == Ok(t)
    requires TakeOffer(lib, tw, offer, tInputs, receive, Some(tChange), tFee) == Ok(taken)
    ensures Asserted(m.spends).Ok? && Asserted(t.spends).Ok?
    ensures forall id :: id in Asserted(m.spends).value || id in Asserted(t.spends).value ==> AnnouncedIn(lib, id, taken.spends)
  {
    hide *;
    LegHash(offered, requested);
    var mp := Payment(requested[0].ph, requested[0].amount, []);
    TakerSideIs(lib, tw, offer, mp, tInputs, receive, Some(tChange), tFee);
    var ms, mc := SideFacts(lib, mw, offered, requested, mInputs, Some(mChange), mFee, m);
    var ts, tc := SideFacts(lib, tw, [Leg(true, mp.amount)], receive, tInputs, Some(tChange), tFee, t);
    SideRead(lib, mw, m, ms, offered[0].amount, mChange, mc, mFee);
    SideRead(lib, tw, t, ts, mp.amount, tChange, tc, tFee);
    SideParts(lib, tw, t, ts, mp.amount, tChange, tc, tFee);
    AnnouncementsMatch(lib, tw, offer, tInputs, receive, Some(tChange), tFee, taken, t);
    CanonicalGroup(m, mp);
    assert t.groups[0] in t.groups;
  }

  lemma CanonicalGroup(side: Side, p: Payment)
    requires AsksFor(side, p)
    ensures NotarizedGroup(side.nonce, [p]) == Ok(side.groups[0]) && side.groups[0] in side.groups
  {
    hide Group, Printable;
  }

  // ----- groups that are not canonical -----

  /** A group that asks for `p` without its memo list. */
  function ShortGroup(nonce: bytes, p: Payment): Sexp
    requires p.amount >= 0
  {
    Pair(Atom(nonce), ListOf([ListOf([Atom(p.ph), Atom(IntToBytes(p.amount))])]))
  }

  /** The short group reads as the same payment and pays it, but it is another tree than the canonical one. */
  lemma ShortGroupReads(nonce: bytes, p: Payment)
    requires |nonce| == |p.ph| == 32 && p.amount >= 0 && p.memos == []
    ensures Asking(ShortGroup(nonce, p), nonce, [p])
    ensures NoDebts([p]) && ShortGroup(nonce, p) != Group(nonce, [p])
    ensures Printable(Group(nonce, [p])) ==> Pays(ShortGroup(nonce, p), p)
  {
    var short, canonical := [Atom(p.ph), Atom(IntToBytes(p.amount))], [Atom(p.ph), Atom(IntToBytes(p.amount)), ListOf(p.memos)];
    var x, y := ListOf(short), PaymentSexp(p);
    ItemsOfList(short);
    ItemsOfList(canonical);
    ItemsOfList([x]);
    ItemsOfList([y]);
    AtomIntOfBytes(p.amount);
    assert [p][0].amount >= 0;
    assert seq(1, i requires 0 <= i < 1 => PaymentSexp([p][i])) == [y];
    ShortPrints(nonce, p, x);
    hide ListOf, ItemsOf, IntToBytes, AtomInt, PaymentSexp, Printable;
    assert x != y;
    assert [x][0] != [y][0];
    assert ReadPayment(x) == Ok(p) && PaidBy(x) == Ok(p.amount);
    assert [x][1..] == [] && ReadPayments([]) == Ok([]) && [p] + [] == [p];
    OneGroup(ShortGroup(nonce, p), x, p);
  }

  lemma ShortPrints(nonce: bytes, p: Payment, x: Sexp)
    requires |nonce| == |p.ph| == 32 && NoDebts([p]) && [p][0] == p && p.amount >= 0
    requires x == ListOf([Atom(p.ph), Atom(IntToBytes(p.amount))])
    ensures Printable(Group(nonce, [p])) ==> Printable(ShortGroup(nonce, p))
  {
    var y := PaymentSexp(p);
    assert seq(1, i requires 0 <= i < 1 => PaymentSexp([p][i])) == [y];
    if Printable(Group(nonce, [p])) {
      assert Group(nonce, [p]) == Pair(Atom(nonce), ListOf([y])) && ListOf([y]).first == y;
      assert Printable(ListOf([y])) && Printable(y);
      var items := [Atom(p.ph), Atom(IntToBytes(p.amount)), ListOf(p.memos)];
      assert y.first == Atom(p.ph) && y.rest == ListOf(items[1..]) && items[1..][0] == Atom(IntToBytes(p.amount));
      assert Printable(y.rest) && Printable(Atom(IntToBytes(p.amount)));
      hide IntToBytes;
      ListPrintable([Atom(p.ph), Atom(IntToBytes(p.amount))]);
      ListPrintable([x]);
    }
  }

  /** Every side that makes an offer also makes one that asks by the short group. */
  lemma ShortOfferMade(lib: Lib, w: Wallet, offered: seq<Leg>, requested: seq<Requested>, inputs: seq<Input>,
                       changePh: Option<bytes>, fee: int, side: Side, prefix: string)
    requires SignsG2(lib, w) && BuildSide(lib, w, offered, requested, inputs, changePh, fee) == Ok(side)
    requires LegsOk(offered, requested)
    requires |inputs| + 1 < Pow(256, 4) && forall i :: 0 <= i < |inputs| ==> U64(inputs[i].coin.amount)
    ensures var p := Payment(requested[0].ph, requested[0].amount, []);
            OfferOf(lib, side.(groups := [ShortGroup(side.nonce, p)]), prefix).Ok?
  {
    hide *;
    LegHash(offered, requested);
    var owned, sorted, conds, payment, amount, change := BuiltSide(lib, w, offered, requested, inputs, changePh, fee, side);
    ShortGroupReads(side.nonce, payment);
    ShortPays(side.nonce, payment);
    SideMakesOffer(lib, w, owned, sorted, conds, side, ShortGroup(side.nonce, payment), prefix);
  }

  lemma ShortPays(nonce: bytes, p: Payment)
    requires |nonce| == |p.ph| == 32 && p.amount >= 0 && p.memos == [] && NoDebts([p]) && Printable(Group(nonce, [p]))
    ensures Printable(ShortGroup(nonce, p))
  {
    ShortPrints(nonce, p, ListOf([Atom(p.ph), Atom(IntToBytes(p.amount))]));
  }

  /** An offer that asks by the short group, while its maker asserts the canonical one, is parsed and
      taken like any other, and its bundle balances and pays both parties; but what the maker asserts is
      announced by no spend of it. */
  lemma ShortGroupTaken(lib: Lib, mw: Wallet, tw: Wallet, offered: seq<Leg>, requested: seq<Requested>, mInput: Input,
                        mChange: bytes, mFee: int, p: Payment, m: Side, prefix: string, built: Built,
                        tInputs: seq<Input>, receive: seq<Requested>, tChange: bytes, tFee: int, t: Side)
    requires Lawful(lib) && SignsG2(lib, mw) && SignsG2(lib, tw) && B.PlainHrp(prefix) && LegsOk(offered, requested)
    requires BuildSide(lib, mw, offered, requested, [mInput], Some(mChange), mFee) == Ok(m)
    requires p == Payment(requested[0].ph, requested[0].amount, [])
    requires OfferOf(lib, m.(groups := [ShortGroup(m.nonce, p)]), prefix) == Ok(built)
    requires |built.bundleBytes| < MAX_OFFER_BYTES && mInput.coin.parent != ZeroParent()
    requires GoodChange(lib, mChange) && GoodChange(lib, tChange) && mInput.coin.puzzleHash != ModHash(lib)
    requires forall i :: 0 <= i < |tInputs| ==> tInputs[i].coin.puzzleHash != ModHash(lib) && U64(tInputs[i].coin.amount)
    requires |tInputs| + 3 < Pow(256, 4) && U64(p.amount) && ReceiveOk(receive, offered[0].amount)
    requires BuildSide(lib, tw, [Leg(true, p.amount)], receive, tInputs, Some(tChange), tFee) == Ok(t)
    ensures NotarizedGroup(m.nonce, [p]).Ok?
    ensures var offer, canonical := ParseOffer(lib, built.offerStr), NotarizedGroup(m.nonce, [p]).value;
            && offer.Ok? && offer.value.asked == Asked(m.nonce, [p], [ShortGroup(m.nonce, p)])
            && Asserted(offer.value.spends) == Ok([AnnouncementId(lib, canonical)])
            && TakeOffer(lib, tw, offer.value, tInputs, receive, Some(tChange), tFee).Ok?
    ensures var offer, canonical := ParseOffer(lib, built.offerStr), NotarizedGroup(m.nonce, [p]).value;
            var taken := TakeOffer(lib, tw, offer.value, tInputs, receive, Some(tChange), tFee).value;
            && Settled(lib, taken.spends, offered[0].amount, receive[0].ph, p.amount, p.ph, mFee + tFee)
            && (m.nonce != t.nonce && Tells(lib, canonical, [ShortGroup(m.nonce, p)] + t.groups) ==>
                  !AnnouncedIn(lib, AnnouncementId(lib, canonical), taken.spends))
  {
    hide *;
    LegHash(offered, requested);
    var short := ShortGroup(m.nonce, p);
    var ms, mc := SideFacts(lib, mw, offered, requested, [mInput], Some(mChange), mFee, m);
    CanonicalGroup(m, p);
    ShortGroupReads(m.nonce, p);
    SidePays(m, p);
    GroupOfSide(m, p);
    var offer := ShortParsed(lib, mw, offered, requested, mInput, mChange, mFee, p, m, prefix, built);
    SideRead(lib, mw, m, ms, offered[0].amount, mChange, mc, mFee);
    TakeOfMade(lib, mw, tw, offered, requested, mInput, mChange, mFee, m, short, offer, tInputs, receive, tChange, tFee);
    var taken := TakeOffer(lib, tw, offer, tInputs, receive, Some(tChange), tFee).value;
    TakerSideIs(lib, tw, offer, p, tInputs, receive, Some(tChange), tFee);
    AnnouncementsMatch(lib, tw, offer, tInputs, receive, Some(tChange), tFee, taken, t);
    MakerOrdinary(lib, mw, m, ms, offered[0].amount, mChange, mc, mFee);
    InputsOrdinary(lib, tInputs);
  }

  lemma InputsOrdinary(lib: Lib, inputs: seq<Input>)
    requires forall i :: 0 <= i < |inputs| ==> inputs[i].coin.puzzleHash != ModHash(lib)
    ensures OrdinaryInputs(lib, inputs)
  {}

  lemma GroupOfSide(side: Side, p: Payment)
    requires AsksFor(side, p)
    ensures NoDebts([p]) && side.groups == [Group(side.nonce, [p])] && Printable(side.groups[0])
  {
    hide Group, Printable;
  }

  lemma MakerOrdinary(lib: Lib, w: Wallet, side: Side, sorted: seq<Owned>, amount: nat, changePh: bytes, change: nat, fee: nat)
    requires IsSide(lib, w, side, sorted, amount, changePh, change, fee)
    requires forall o :: o in sorted ==> o.coin.puzzleHash != ModHash(lib)
    ensures Ordinary(lib, side.spends)
  {
    WholeSideFlow(lib, w, side, sorted, amount, changePh, change, fee);
    hide IsSide, ModHash, Flows;
  }

  /** The string of an offer that asks by the short group parses as that offer. */
  lemma ShortParsed(lib: Lib, w: Wallet, offered: seq<Leg>, requested: seq<Requested>, input: Input, changePh: bytes, fee: int,
                    p: Payment, m: Side, prefix: string, built: Built)
    returns (offer: Parsed)
    requires Lawful(lib) && SignsG2(lib, w) && B.PlainHrp(prefix) && LegsOk(offered, requested)
    requires BuildSide(lib, w, offered, requested, [input], Some(changePh), fee) == Ok(m)
    requires p == Payment(requested[0].ph, requested[0].amount, [])
    requires OfferOf(lib, m.(groups := [ShortGroup(m.nonce, p)]), prefix) == Ok(built)
    requires |built.bundleBytes| < MAX_OFFER_BYTES && input.coin.parent != ZeroParent()
    ensures ParseOffer(lib, built.offerStr) == Ok(offer) && offer.spends == m.spends && lib.isG2(offer.signature)
    ensures offer.asked == Asked(m.nonce, [p], [ShortGroup(m.nonce, p)])
    ensures forall s :: s in m.spends ==> U64(s.coin.amount)
  {
    hide *;
    LegHash(offered, requested);
    var short := ShortGroup(m.nonce, p);
    var side := m.(groups := [short]);
    var owned, sorted, conds, payment, amount, change := BuiltSide(lib, w, offered, requested, [input], Some(changePh), fee, m);
    var sig := SideSignature(lib, w, offered, requested, [input], Some(changePh), fee, m);
    ShortGroupReads(m.nonce, p);
    SidePrinted(lib, w, owned, sorted, conds, m, short, [p], prefix, built, sig);
    offer := ParseOffer(lib, built.offerStr).value;
    OfferParts(lib, side, prefix, built, sig);
    MadeAmounts(DummySpend(lib, side.groups).value, m.spends, sig);
  }

  /** And an offer that asks by the short group, whose maker asserts that group's own announcement, is refused. */
  lemma ShortAssertionRefused(lib: Lib, w: Wallet, offer: Parsed, p: Payment, inputs: seq<Input>, receive: seq<Requested>,
                              changePh: Option<bytes>, fee: int)
    requires |offer.asked.nonce| == |p.ph| == 32 && p.amount >= 0 && p.memos == [] && offer.asked.payments == [p]
    requires var short := ShortGroup(offer.asked.nonce, p);
             && Asserted(offer.spends) == Ok([AnnouncementId(lib, short)])
             && NoDebts([p]) && Tells(lib, Group(offer.asked.nonce, [p]), [short])
    ensures TakeOffer(lib, w, offer, inputs, receive, changePh, fee) == Err
  {
    hide *;
    var short, canonical := ShortGroup(offer.asked.nonce, p), Group(offer.asked.nonce, [p]);
    ShortGroupReads(offer.asked.nonce, p);
    if TakeOffer(lib, w, offer, inputs, receive, changePh, fee).Ok? {
      MakerVerified(lib, w, offer, inputs, receive, changePh, fee, TakeOffer(lib, w, offer, inputs, receive, changePh, fee).value);
      NotarizedIs(offer.asked.nonce, [p]);
      TellsOne(lib, canonical, short);
      if AnnouncementId(lib, canonical) == AnnouncementId(lib, short) {
        IdNamesGroup(lib, canonical, short);
      }
    }
  }

  lemma TellsOne(lib: Lib, g: Sexp, x: Sexp)
    requires Tells(lib, g, [x])
    ensures CollisionFree(lib.h, Hashed(lib, g) + Hashed(lib, x))
  {
    hide Hashed, CollisionFree;
    assert x in [x];
  }

  lemma NotarizedIs(nonce: bytes, ps: seq<Payment>)
    requires NotarizedGroup(nonce, ps).Ok?
    ensures NoDebts(ps) && NotarizedGroup(nonce, ps).value == Group(nonce, ps)
  {}
}
