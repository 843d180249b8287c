/** What a made offer is: its nonce, its spends, and that parsing its string recovers them. */
module OfferMade {
  import opened Wrappers
  import opened Radix
  import opened Bytes
  import opened Clvm
  import opened TreeHashing
  import opened Streamable
  import opened OfferBundle
  import opened OfferConditions
  import opened Sorting
  import opened Offer
  import opened OfferString
  import B = Bech32mText

  // ----- the nonce -----

  /** The nonce does not depend on the order of the coins when equal ids mean equal coins. */
  lemma NonceForgetsOrder(h: Hash, a: seq<Coin>, b: seq<Coin>)
    requires multiset(a) == multiset(b)
    requires forall x, y :: x in a && y in a && CoinId(h, x) == CoinId(h, y) ==> x == y
    ensures OfferNonce(h, a) == OfferNonce(h, b)
  {
    forall x, y | x in a && y in a && IdKey(h)(x) == IdKey(h)(y)
      ensures x == y
    {
      ValueInjective(CoinId(h, x), CoinId(h, y), 256);
    }
    SortForgetsOrder(a, b, IdKey(h));
  }

  lemma CoinInfoInjective(c: Coin, d: Coin)
    requires CoinInfo(c) == CoinInfo(d)
    ensures c == d
  {
    var x := [Atom(c.parent), Atom(c.puzzleHash), Atom(IntToBytes(c.amount))];
    var y := [Atom(d.parent), Atom(d.puzzleHash), Atom(IntToBytes(d.amount))];
    ItemsOfList(x);
    ItemsOfList(y);
    hide ListOf, ItemsOf, IntToBytes, AtomInt;
    assert x == y;
    assert x[0] == y[0] && x[1] == y[1] && x[2] == y[2];
    AtomIntOfBytes(c.amount);
    AtomIntOfBytes(d.amount);
  }

  /** One nonce, one set of coins: unless the hash collides on something that was hashed. */
  lemma NonceTellsCoins(h: Hash, a: seq<Coin>, b: seq<Coin>)
    requires CollisionFree(h, Inputs(h, NonceTree(h, a)) + Inputs(h, NonceTree(h, b)))
    requires OfferNonce(h, a) == OfferNonce(h, b)
    ensures multiset(a) == multiset(b)
  {
    TreeHashInjective(h, NonceTree(h, a), NonceTree(h, b));
    var x, y := SortBy(a, IdKey(h)), SortBy(b, IdKey(h));
    ItemsOfList(CoinInfos(x));
    ItemsOfList(CoinInfos(y));
    assert CoinInfos(x) == CoinInfos(y);
    forall i | 0 <= i < |x|
      ensures x[i] == y[i]
    {
      assert CoinInfos(x)[i] == CoinInfos(y)[i];
      CoinInfoInjective(x[i], y[i]);
    }
    assert |x| == |CoinInfos(x)| == |y| && x == y;
    SortPermutes(a, IdKey(h));
    SortPermutes(b, IdKey(h));
  }

  /** `b` is the shortest signed form of `v`. */
  ghost predicate ShortestInt(b: bytes, v: nat) {
    AtomInt(b) == v && forall other :: AtomInt(other) == v ==> |b| <= |other|
  }

  lemma PrintedShortest(v: nat)
    ensures ShortestInt(IntToBytes(v), v)
  {
    AtomIntOfBytes(v);
    hide IntToBytes, AtomInt;
    forall other | AtomInt(other) == v
      ensures |IntToBytes(v)| <= |other|
    {
      IntIsShortest(v, other);
    }
  }

  /** What a coin id hashes: parent, puzzle hash, and the amount in its shortest signed form. */
  lemma CoinIdHashes(h: Hash, c: Coin, amount: bytes)
    requires ShortestInt(amount, c.amount)
    ensures CoinId(h, c) == h(c.parent + c.puzzleHash + amount)
  {
    AtomIntOfBytes(c.amount);
    IntIsShortest(c.amount, amount);
    assert AtomInt(IntToBytes(c.amount)) == c.amount;
  }

  /** The list of a coin: parent, puzzle hash, amount. */
  ghost predicate ListsCoin(x: Sexp, c: Coin) {
    var items := ItemsOf(x);
    && items.Ok? && |items.value| == 3
    && items.value[0] == Atom(c.parent) && items.value[1] == Atom(c.puzzleHash)
    && items.value[2].Atom? && ShortestInt(items.value[2].b, c.amount)
  }

  lemma CoinInfoLists(c: Coin)
    ensures ListsCoin(CoinInfo(c), c)
  {
    PrintedShortest(c.amount);
    hide IntToBytes, ShortestInt;
    ItemsOfList([Atom(c.parent), Atom(c.puzzleHash), Atom(IntToBytes(c.amount))]);
  }

  /** What the nonce hashes: the list of every coin once, by ascending id. */
  lemma NonceListsCoins(h: Hash, coins: seq<Coin>) returns (order: seq<Coin>, infos: seq<Sexp>)
    ensures OfferNonce(h, coins) == TreeHash(h, ListOf(infos)) && |infos| == |order|
    ensures multiset(order) == multiset(coins)
    ensures forall i, j :: 0 <= i < j < |order| ==> BigEndian(CoinId(h, order[i])) <= BigEndian(CoinId(h, order[j]))
    ensures forall i :: 0 <= i < |order| ==> ListsCoin(infos[i], order[i])
  {
    order := SortBy(coins, IdKey(h));
    infos := CoinInfos(order);
    SortPermutes(coins, IdKey(h));
    SortSorts(coins, IdKey(h));
    hide ListsCoin, TreeHash, CoinId, BigEndian;
    forall i, j | 0 <= i < j < |order|
      ensures BigEndian(CoinId(h, order[i])) <= BigEndian(CoinId(h, order[j]))
    {
      assert IdKey(h)(order[i]) <= IdKey(h)(order[j]);
    }
    forall i | 0 <= i < |order|
      ensures ListsCoin(infos[i], order[i])
    {
      CoinInfoLists(order[i]);
    }
  }

  // ----- reading back what was asked for -----

  lemma PaymentRead(p: Payment)
    requires p.amount >= 0 && |p.ph| == 32
    ensures ReadPayment(PaymentSexp(p)) == Ok(p)
  {
    var items := [Atom(p.ph), Atom(IntToBytes(p.amount)), ListOf(p.memos)];
    ItemsOfList(items);
    ItemsOfList(p.memos);
    AtomIntOfBytes(p.amount);
    hide ListOf, ItemsOf, IntToBytes, AtomInt;
    assert |items| == 3 && items[0].b == p.ph;
  }

  lemma {:induction false} PaymentsRead(ps: seq<Payment>, xs: seq<Sexp>)
    requires NoDebts(ps) && |xs| == |ps|
    requires forall i :: 0 <= i < |ps| ==> |ps[i].ph| == 32 && xs[i] == PaymentSexp(ps[i])
    ensures ReadPayments(xs) == Ok(ps)
    decreases |ps|
  {
    hide ReadPayment, PaymentSexp;
    if ps != [] {
      PaymentRead(ps[0]);
      PaymentsRead(ps[1..], xs[1..]);
      assert ps == [ps[0]] + ps[1..];
    }
  }

  lemma GroupRead(nonce: bytes, ps: seq<Payment>)
    requires NoDebts(ps) && forall i :: 0 <= i < |ps| ==> |ps[i].ph| == 32
    ensures ReadGroup(Group(nonce, ps), nonce) == Ok(ps)
  {
    var xs := seq(|ps|, i requires 0 <= i < |ps| => PaymentSexp(ps[i]));
    ItemsOfList(xs);
    PaymentsRead(ps, xs);
  }

  /** A group that reads as these payments under this nonce, canonical or not. */
  predicate Asking(g: Sexp, nonce: bytes, ps: seq<Payment>) {
    |nonce| == 32 && ReadGroup(g, nonce) == Ok(ps)
  }

  lemma CanonicalAsks(nonce: bytes, ps: seq<Payment>)
    requires |nonce| == 32 && NoDebts(ps) && forall i :: 0 <= i < |ps| ==> |ps[i].ph| == 32
    ensures Asking(Group(nonce, ps), nonce, ps)
  {
    GroupRead(nonce, ps);
  }

  /** A dummy spend with one group asks for exactly the payments that the group reads as. */
  lemma RequestedRead(g: Sexp, nonce: bytes, ps: seq<Payment>, solution: bytes)
    requires Asking(g, nonce, ps) && Ser(ListOf([g])) == Ok(solution)
    ensures ParseRequested(solution) == Ok(Asked(nonce, ps, [g]))
  {
    AskingShape(g, nonce, ps);
    hide Deser, ItemsOf, ListOf, ReadGroup, Ser;
    SerRead(ListOf([g]), solution);
    ItemsOfList([g]);
    assert [g][1..] == [] && ps + [] == ps;
    assert ReadGroups([], nonce) == Ok([]);
    assert ReadGroups([g], nonce) == Ok(ps);
  }

  /** Payments one after another. */
  function Flatten(pss: seq<seq<Payment>>): seq<Payment>
  {
    if pss == [] then [] else pss[0] + Flatten(pss[1..])
  }

  lemma {:induction false} GroupsRead(gs: seq<Sexp>, nonce: bytes, pss: seq<seq<Payment>>)
    requires |gs| == |pss| && forall i :: 0 <= i < |gs| ==> ReadGroup(gs[i], nonce) == Ok(pss[i])
    ensures ReadGroups(gs, nonce) == Ok(Flatten(pss))
    decreases |gs|
  {
    hide ReadGroup;
    if gs != [] {
      GroupsRead(gs[1..], nonce, pss[1..]);
    }
  }

  lemma {:induction false} OtherNonce(gs: seq<Sexp>, nonce: bytes, k: nat)
    requires k < |gs| && !(gs[k].Pair? && gs[k].first == Atom(nonce))
    ensures ReadGroups(gs, nonce) == Err
    decreases |gs|
  {
    if k > 0 {
      OtherNonce(gs[1..], nonce, k - 1);
    }
  }

  /** With several groups the payments are taken in order, and one nonce is asked for throughout: a
      group under another nonce refuses the whole. */
  lemma {:induction false} GroupsAsked(gs: seq<Sexp>, nonce: bytes, solution: bytes)
    requires gs != [] && |nonce| == 32 && gs[0].Pair? && gs[0].first == Atom(nonce) && Ser(ListOf(gs)) == Ok(solution)
    ensures forall pss: seq<seq<Payment>> ::
              |pss| == |gs| && (forall i :: 0 <= i < |gs| ==> ReadGroup(gs[i], nonce) == Ok(pss[i])) ==>
                ParseRequested(solution) == Ok(Asked(nonce, Flatten(pss), gs))
    ensures (exists k :: 0 <= k < |gs| && !(gs[k].Pair? && gs[k].first == Atom(nonce))) ==> ParseRequested(solution) == Err
  {
    hide Deser, ItemsOf, ListOf, ReadGroup, ReadGroups, Ser, Flatten;
    SerRead(ListOf(gs), solution);
    ItemsOfList(gs);
    forall pss: seq<seq<Payment>> | |pss| == |gs| && forall i :: 0 <= i < |gs| ==> ReadGroup(gs[i], nonce) == Ok(pss[i])
      ensures ParseRequested(solution) == Ok(Asked(nonce, Flatten(pss), gs))
    {
      GroupsRead(gs, nonce, pss);
    }
    if k :| 0 <= k < |gs| && !(gs[k].Pair? && gs[k].first == Atom(nonce)) {
      OtherNonce(gs, nonce, k);
    }
  }

  lemma AskingShape(g: Sexp, nonce: bytes, ps: seq<Payment>)
    requires Asking(g, nonce, ps)
    ensures g.Pair? && g.first == Atom(nonce)
  {}

  // ----- the spends of a side -----

  predicate Ours(lib: Lib, o: Owned) {
    TreeHash(lib.h, o.puzzle) == o.coin.puzzleHash && |o.coin.parent| == 32 && o.coin.amount > 0
  }

  /** The wallet's puzzle for an input: its standard puzzle, or else its legacy one. */
  predicate OwnedBy(lib: Lib, w: Wallet, inp: Input, o: Owned) {
    && o.coin == inp.coin && o.index == inp.index
    && o.puzzle == if TreeHash(lib.h, w.standard(inp.index)) == inp.coin.puzzleHash then w.standard(inp.index)
                   else w.legacy(inp.index)
  }

  lemma {:induction false} CheckedAt(lib: Lib, w: Wallet, inputs: seq<Input>, owned: seq<Owned>)
    requires CheckInputs(lib, w, inputs) == Ok(owned)
    ensures |owned| == |inputs|
    ensures forall i :: 0 <= i < |owned| ==>
              Ours(lib, owned[i]) && owned[i].coin == inputs[i].coin && OwnedBy(lib, w, inputs[i], owned[i])
    decreases |inputs|
  {
    if inputs != [] {
      var n := |inputs| - 1;
      var before := CheckInputs(lib, w, inputs[..n]).value;
      CheckedAt(lib, w, inputs[..n], before);
      assert owned == before + [owned[n]];
    }
  }

  /** The conditions of the spend at place `i` of a side. */
  function CondsAt(conds: seq<Sexp>, i: nat): seq<Sexp> { if i == 0 then conds else [] }

  lemma {:induction false} SpendsAt(owned: seq<Owned>, conds: seq<Sexp>, spends: seq<CoinSpend>, i: nat)
    requires SpendsOf(owned, conds) == Ok(spends) && i < |owned|
    ensures |spends| == |owned| && SpendOf(owned[i], CondsAt(conds, i)) == Ok(spends[i])
    decreases |owned|
  {
    hide SpendOf;
    var n := |owned| - 1;
    var before := SpendsOf(owned[..n], conds).value;
    assert spends == before + [spends[n]];
    if i < n {
      SpendsAt(owned[..n], conds, before, i);
    }
  }

  lemma SpendTied(lib: Lib, o: Owned, conds: seq<Sexp>, s: CoinSpend)
    requires Ours(lib, o) && SpendOf(o, conds) == Ok(s)
    ensures Tied(lib.h, s) && s.coin == o.coin && ParseConditions(s.solution) == Ok(conds)
  {
    DeserPrinted(o.puzzle);
    hide Deser, Print, Printable, StandardSolution, ParseConditions, ListOf;
    SerRead(StandardSolution(ListOf(conds)), s.solution);
    SolutionRead(conds, s.solution);
  }

  lemma {:induction false} SortedOurs(lib: Lib, owned: seq<Owned>, o: Owned)
    requires o in SortBy(owned, OwnedKey(lib.h))
    ensures o in owned
  {
    SortPermutes(owned, OwnedKey(lib.h));
    assert o in multiset(SortBy(owned, OwnedKey(lib.h)));
  }

  /** How a built side hangs together: its sorted coins and the conditions of its first spend. */
  ghost predicate Assembled(lib: Lib, w: Wallet, side: Side, sorted: seq<Owned>, conds: seq<Sexp>) {
    && sorted != [] && SpendsOf(sorted, conds) == Ok(side.spends) && side.signatures == Signatures(w, sorted, conds)
    && forall o :: o in sorted ==> Ours(lib, o)
  }

  lemma SpendInSide(lib: Lib, w: Wallet, side: Side, sorted: seq<Owned>, conds: seq<Sexp>, i: nat)
    requires Assembled(lib, w, side, sorted, conds) && i < |sorted|
    ensures |side.spends| == |sorted| && side.spends[i].coin == sorted[i].coin && Tied(lib.h, side.spends[i])
    ensures ParseConditions(side.spends[i].solution) == Ok(CondsAt(conds, i))
  {
    hide SpendOf, SpendsOf, Ours, Tied, ParseConditions, Signatures;
    SpendsAt(sorted, conds, side.spends, i);
    assert sorted[i] in sorted;
    SpendTied(lib, sorted[i], CondsAt(conds, i), side.spends[i]);
  }

  /** The parts of a side that was built. */
  lemma BuiltSide(lib: Lib, w: Wallet, offered: seq<Leg>, requested: seq<Requested>, inputs: seq<Input>,
                  changePh: Option<bytes>, fee: int, side: Side)
    returns (owned: seq<Owned>, sorted: seq<Owned>, conds: seq<Sexp>, payment: Payment, amount: nat, change: nat)
    requires BuildSide(lib, w, offered, requested, inputs, changePh, fee) == Ok(side)
    ensures LegsOk(offered, requested) && fee >= 0 && changePh.Some?
    ensures amount == offered[0].amount && payment == Payment(requested[0].ph, requested[0].amount, [])
    ensures |owned| == |inputs|
    ensures forall i :: 0 <= i < |inputs| ==> owned[i].coin == inputs[i].coin && OwnedBy(lib, w, inputs[i], owned[i])
    ensures sorted == SortBy(owned, OwnedKey(lib.h)) && Assembled(lib, w, side, sorted, conds)
    ensures side.nonce == OfferNonce(lib.h, OwnedCoins(owned))
    ensures side.groups == [Group(side.nonce, [payment])] && Printable(side.groups[0]) && NoDebts([payment])
    ensures Total(OwnedCoins(owned)) == amount + fee + change
    ensures conds == OriginConditions(lib, amount, changePh.value, change, fee, side.groups[0])
    ensures side.settlement == [Settlement(CoinId(lib.h, sorted[0].coin), amount)]
  {
    hide CheckInputs, SpendsOf, OriginConditions, Signatures, Total, SortBy, Printable, Group, Ours, OfferNonce, NoDebts, CoinId;
    owned := CheckInputs(lib, w, inputs).value;
    CheckedAt(lib, w, inputs, owned);
    assert LegsOk(offered, requested) ==> [Payment(requested[0].ph, requested[0].amount, [])][0].amount >= 0;
    sorted := SortBy(owned, OwnedKey(lib.h));
    amount := offered[0].amount;
    payment := Payment(requested[0].ph, requested[0].amount, []);
    change := Total(OwnedCoins(owned)) - amount - fee;
    conds := OriginConditions(lib, amount, changePh.value, change, fee, side.groups[0]);
    forall o | o in sorted
      ensures Ours(lib, o)
    {
      SortedOurs(lib, owned, o);
    }
  }

  // ----- parsing a made offer -----

  lemma {:induction false} MakersFollow(lib: Lib, dummy: CoinSpend, asked: Asked, maker: seq<CoinSpend>, k: nat)
    requires k <= |maker| && AddSpend(lib, Legs(None, []), dummy) == Ok(Legs(Some(asked), []))
    requires forall i :: 0 <= i < |maker| ==> maker[i].coin.parent != ZeroParent() && ParseConditions(maker[i].solution).Ok?
    ensures SortSpends(lib, ([dummy] + maker)[..k + 1]) == Ok(Legs(Some(asked), maker[..k]))
    decreases k
  {
    hide ParseConditions, ParseRequested, Deser, ModHash;
    var all := [dummy] + maker;
    SortedPrefix(lib, all, k);
    if k == 0 {
      assert all[..0] == [] && maker[..0] == [];
    } else {
      MakersFollow(lib, dummy, asked, maker, k - 1);
      assert all[k] == maker[k - 1];
      assert maker[..k] == maker[..k - 1] + [maker[k - 1]];
    }
  }

  lemma DummyRead(lib: Lib, g: Sexp, nonce: bytes, ps: seq<Payment>, dummy: CoinSpend)
    requires Asking(g, nonce, ps) && DummySpend(lib, [g]) == Ok(dummy)
    ensures Tied(lib.h, dummy)
    ensures AddSpend(lib, Legs(None, []), dummy) == Ok(Legs(Some(Asked(nonce, ps, [g])), []))
  {
    DeserPrinted(lib.offerMod);
    RequestedRead(g, nonce, ps, dummy.solution);
    hide Deser, Print, Printable, ParseRequested, Asking;
    SerRead(ListOf([g]), dummy.solution);
  }

  lemma PayloadParsed(lib: Lib, data: bytes, dummy: CoinSpend, maker: seq<CoinSpend>, sig: Signature, asked: Asked)
    requires Lawful(lib) && |data| < MAX_OFFER_BYTES && maker != []
    requires SerializeBundle([dummy] + maker, sig) == Ok(data) && AllTied(lib.h, [dummy] + maker)
    requires AddSpend(lib, Legs(None, []), dummy) == Ok(Legs(Some(asked), []))
    requires forall i :: 0 <= i < |maker| ==> maker[i].coin.parent != ZeroParent() && ParseConditions(maker[i].solution).Ok?
    ensures ParsePayload(lib, Compress(lib, data)) == Ok(Parsed(asked, maker, sig, data, lib.h(data)))
  {
    hide Decompress, Compress, ReadBundle, SerializeBundle, AllTied, AddSpend, SortSpends, ParseConditions;
    DecompressCompressed(lib, data);
    BundleCodec(lib.h, data, [dummy] + maker, sig);
    MakersFollow(lib, dummy, asked, maker, |maker|);
    assert ([dummy] + maker)[..|maker| + 1] == [dummy] + maker && maker[..|maker|] == maker;
  }

  /** Parsing the string of a made offer recovers the nonce, the payments, the groups, the maker's
      spends, the signature, the bundle bytes and the offer id. */
  lemma MadeIsParsed(lib: Lib, w: Wallet, offered: seq<Leg>, requested: seq<Requested>, inputs: seq<Input>,
                     changePh: Option<bytes>, fee: int, prefix: string, built: Built, side: Side, sig: Signature)
    requires Lawful(lib) && B.PlainHrp(prefix)
    requires MakeOffer(lib, w, offered, requested, inputs, changePh, fee, prefix) == Ok(built)
    requires BuildSide(lib, w, offered, requested, inputs, changePh, fee) == Ok(side)
    requires Aggregate(lib, side.signatures) == Ok(sig)
    requires |built.bundleBytes| < MAX_OFFER_BYTES
    requires forall i :: 0 <= i < |inputs| ==> inputs[i].coin.parent != ZeroParent()
    ensures LegsOk(offered, requested)
    ensures var payments := [Payment(requested[0].ph, requested[0].amount, [])];
            ParseOffer(lib, built.offerStr) ==
            Ok(Parsed(Asked(built.nonce, payments, side.groups), side.spends, sig, built.bundleBytes, built.offerId))
  {
    hide *;
    var owned, sorted, conds, payment, amount, change := BuiltSide(lib, w, offered, requested, inputs, changePh, fee, side);
    LegHash(offered, requested);
    MadeOf(lib, w, offered, requested, inputs, changePh, fee, prefix, built, side);
    CanonicalAsks(side.nonce, [payment]);
    SidePrinted(lib, w, owned, sorted, conds, side, side.groups[0], [payment], prefix, built, sig);
  }

  lemma MadeOf(lib: Lib, w: Wallet, offered: seq<Leg>, requested: seq<Requested>, inputs: seq<Input>,
               changePh: Option<bytes>, fee: int, prefix: string, built: Built, side: Side)
    requires MakeOffer(lib, w, offered, requested, inputs, changePh, fee, prefix) == Ok(built)
    requires BuildSide(lib, w, offered, requested, inputs, changePh, fee) == Ok(side) && |side.groups| == 1
    ensures OfferOf(lib, side.(groups := [side.groups[0]]), prefix) == Ok(built)
  {
    hide BuildSide, OfferOf;
    assert side.groups == [side.groups[0]];
    assert side.(groups := [side.groups[0]]) == side;
  }

  /** A side's spends in an offer string that asks by the group `g` parse as those spends and that group. */
  lemma {:induction false} SidePrinted(lib: Lib, w: Wallet, owned: seq<Owned>, sorted: seq<Owned>, conds: seq<Sexp>, side: Side,
                    g: Sexp, ps: seq<Payment>, prefix: string, built: Built, sig: Signature)
    requires Lawful(lib) && B.PlainHrp(prefix) && Asking(g, side.nonce, ps)
    requires sorted == SortBy(owned, OwnedKey(lib.h)) && Assembled(lib, w, side, sorted, conds)
    requires OfferOf(lib, side.(groups := [g]), prefix) == Ok(built) && Aggregate(lib, side.signatures) == Ok(sig)
    requires |built.bundleBytes| < MAX_OFFER_BYTES
    requires forall o :: o in owned ==> o.coin.parent != ZeroParent()
    ensures built.nonce == side.nonce
    ensures ParseOffer(lib, built.offerStr) ==
            Ok(Parsed(Asked(side.nonce, ps, [g]), side.spends, sig, built.bundleBytes, built.offerId))
  {
    hide *;
    OfferParts(lib, side.(groups := [g]), prefix, built, sig);
    var dummy := DummySpend(lib, [g]).value;
    DummyRead(lib, g, side.nonce, ps, dummy);
    SideTied(lib, w, owned, sorted, conds, side);
    AllTiedWith(lib, dummy, side.spends);
    PayloadParsed(lib, built.bundleBytes, dummy, side.spends, sig, Asked(side.nonce, ps, [g]));
    ParsedText(lib, prefix, Compress(lib, built.bundleBytes));
  }

  lemma LegHash(offered: seq<Leg>, requested: seq<Requested>)
    requires LegsOk(offered, requested)
    ensures |offered| == 1 && |requested| == 1
    ensures |requested[0].ph| == 32 && requested[0].amount > 0 && offered[0].amount > 0
  {}

  lemma ParsedText(lib: Lib, prefix: string, payload: bytes)
    requires B.PlainHrp(prefix)
    ensures ParseOffer(lib, B.Encode(prefix, payload)) == ParsePayload(lib, payload)
  {
    hide ParsePayload, B.Decode, B.Encode;
    B.RoundTrip(prefix, payload);
  }

  lemma AllTiedWith(lib: Lib, dummy: CoinSpend, spends: seq<CoinSpend>)
    requires Tied(lib.h, dummy) && forall i :: 0 <= i < |spends| ==> Tied(lib.h, spends[i])
    ensures AllTied(lib.h, [dummy] + spends)
  {
    hide Tied;
  }

  lemma OfferParts(lib: Lib, side: Side, prefix: string, built: Built, sig: Signature)
    requires OfferOf(lib, side, prefix) == Ok(built) && Aggregate(lib, side.signatures) == Ok(sig)
    ensures DummySpend(lib, side.groups).Ok?
    ensures SerializeBundle([DummySpend(lib, side.groups).value] + side.spends, sig) == Ok(built.bundleBytes)
    ensures built.offerStr == B.Encode(prefix, Compress(lib, built.bundleBytes))
    ensures built.offerId == lib.h(built.bundleBytes) && built.nonce == side.nonce
  {
    hide DummySpend, Aggregate, SerializeBundle, Compress;
  }

  /** Every spend of a side is tied to its coin, standard, and spends one of the inputs. */
  lemma {:induction false} SideTied(lib: Lib, w: Wallet, owned: seq<Owned>, sorted: seq<Owned>, conds: seq<Sexp>, side: Side)
    requires sorted == SortBy(owned, OwnedKey(lib.h)) && Assembled(lib, w, side, sorted, conds)
    ensures side.spends != [] && |side.spends| == |sorted|
    ensures forall i :: 0 <= i < |side.spends| ==>
              Tied(lib.h, side.spends[i]) && ParseConditions(side.spends[i].solution).Ok?
              && exists o :: o in owned && o.coin == side.spends[i].coin
  {
    AssembledSorted(lib, w, side, sorted, conds);
    hide *;
    forall i | 0 <= i < |side.spends|
      ensures Tied(lib.h, side.spends[i]) && ParseConditions(side.spends[i].solution).Ok?
      ensures exists o :: o in owned && o.coin == side.spends[i].coin
    {
      SpendInSide(lib, w, side, sorted, conds, i);
      SortedOurs(lib, owned, sorted[i]);
    }
  }

  lemma AssembledSorted(lib: Lib, w: Wallet, side: Side, sorted: seq<Owned>, conds: seq<Sexp>)
    requires Assembled(lib, w, side, sorted, conds)
    ensures sorted != [] && |side.spends| == |sorted| == |side.signatures|
  {}
}
