/** What leaves the wallet: in which order a side spends its coins, what each signature covers, and the
    bytes of a made offer and of a take. */
module OfferBytes {
  import opened Wrappers
  import opened Bytes
  import opened Clvm
  import opened TreeHashing
  import opened Streamable
  import opened OfferBundle
  import opened OfferConditions
  import opened Sorting
  import opened Offer
  import opened OfferString
  import opened OfferMade
  import opened OfferTake
  import B = Bech32mText

  function InputCoins(inputs: seq<Input>): (coins: seq<Coin>)
    ensures |coins| == |inputs|
  {
    seq(|inputs|, i requires 0 <= i < |inputs| => inputs[i].coin)
  }

  lemma SameCoins(owned: seq<Owned>, inputs: seq<Input>)
    requires |owned| == |inputs| && forall i :: 0 <= i < |inputs| ==> owned[i].coin == inputs[i].coin
    ensures OwnedCoins(owned) == InputCoins(inputs)
  {}

  function SpentCoins(spends: seq<CoinSpend>): (coins: seq<Coin>)
    ensures |coins| == |spends|
  {
    seq(|spends|, i requires 0 <= i < |spends| => spends[i].coin)
  }

  // ----- order and signatures of a side -----

  /** The spend of one input: the wallet's own puzzle at that index, a standard solution, and the wallet's
      signature over that coin and the conditions of that solution. */
  ghost predicate SpentBy(lib: Lib, w: Wallet, inp: Input, s: CoinSpend, sig: Signature) {
    && s.coin == inp.coin && Tied(lib.h, s)
    && (Deser(s.puzzle) == Ok(w.standard(inp.index)) || Deser(s.puzzle) == Ok(w.legacy(inp.index)))
    && ParseConditions(s.solution).Ok?
    && sig == w.sign(inp.index, inp.coin, ListOf(ParseConditions(s.solution).value))
  }

  ghost predicate Ascending(h: Hash, order: seq<Input>) {
    forall i, j :: 0 <= i < j < |order| ==> BigEndian(CoinId(h, order[i].coin)) <= BigEndian(CoinId(h, order[j].coin))
  }

  /** Every input is spent and signed for once, by ascending coin id. */
  ghost predicate SpentInOrder(lib: Lib, w: Wallet, inputs: seq<Input>, order: seq<Input>, spends: seq<CoinSpend>,
                               sigs: seq<Signature>) {
    && multiset(order) == multiset(inputs) && |order| == |spends| == |sigs| && Ascending(lib.h, order)
    && forall k :: 0 <= k < |order| ==> SpentBy(lib, w, order[k], spends[k], sigs[k])
  }

  function InputOf(o: Owned): Input { Input(o.coin, o.index) }

  lemma {:induction false} OneSpent(lib: Lib, w: Wallet, side: Side, sorted: seq<Owned>, conds: seq<Sexp>, k: nat, inp: Input)
    requires Assembled(lib, w, side, sorted, conds) && k < |sorted| && OwnedBy(lib, w, inp, sorted[k])
    ensures |side.spends| == |side.signatures| == |sorted| && SpentBy(lib, w, inp, side.spends[k], side.signatures[k])
  {
    AssembledSorted(lib, w, side, sorted, conds);
    SpendInSide(lib, w, side, sorted, conds, k);
    SignaturesAt(w, sorted, conds, k);
    hide ParseConditions, ListOf, Tied, Ours, Signatures, Deser, Print, Printable, TreeHash;
    SpendsAt(sorted, conds, side.spends, k);
    DeserPrinted(sorted[k].puzzle);
  }

  lemma InputsPermute(h: Hash, owned: seq<Owned>, inputs: seq<Input>) returns (order: seq<Input>)
    requires |owned| == |inputs| && forall i :: 0 <= i < |inputs| ==> InputOf(owned[i]) == inputs[i]
    ensures multiset(order) == multiset(inputs) && |order| == |owned| && Ascending(h, order)
    ensures forall k :: 0 <= k < |order| ==> order[k] == InputOf(SortBy(owned, OwnedKey(h))[k])
  {
    var sorted := SortBy(owned, OwnedKey(h));
    order := Images(sorted, InputOf);
    SortPermutes(owned, OwnedKey(h));
    ImagesPermute(sorted, owned, InputOf);
    assert Images(owned, InputOf) == inputs;
    SortSorts(owned, OwnedKey(h));
    hide CoinId, BigEndian, SortBy;
    forall i, j | 0 <= i < j < |order|
      ensures BigEndian(CoinId(h, order[i].coin)) <= BigEndian(CoinId(h, order[j].coin))
    {
      assert OwnedKey(h)(sorted[i]) <= OwnedKey(h)(sorted[j]);
    }
  }

  lemma {:induction false} EverySpent(lib: Lib, w: Wallet, side: Side, owned: seq<Owned>, sorted: seq<Owned>,
                                      conds: seq<Sexp>, inputs: seq<Input>, order: seq<Input>)
    requires Assembled(lib, w, side, sorted, conds) && sorted == SortBy(owned, OwnedKey(lib.h))
    requires |owned| == |inputs| && forall i :: 0 <= i < |inputs| ==> OwnedBy(lib, w, inputs[i], owned[i])
    requires multiset(order) == multiset(inputs) && |order| == |sorted| && Ascending(lib.h, order)
    requires forall k :: 0 <= k < |order| ==> order[k] == InputOf(sorted[k])
    ensures SpentInOrder(lib, w, inputs, order, side.spends, side.signatures)
  {
    AssembledSorted(lib, w, side, sorted, conds);
    forall k | 0 <= k < |order|
      ensures SpentBy(lib, w, order[k], side.spends[k], side.signatures[k])
    {
      hide Assembled, SpentBy, TreeHash, Ascending, SortBy;
      SortedOurs(lib, owned, sorted[k]);
      var i :| 0 <= i < |owned| && owned[i] == sorted[k];
      assert OwnedBy(lib, w, inputs[i], owned[i]);
      assert order[k] == inputs[i];
      OneSpent(lib, w, side, sorted, conds, k, order[k]);
    }
  }

  /** Every built side spends its inputs by ascending coin id, each signed for over its own coin and
      conditions, and the settlement coin is a child of the input with the least id. */
  lemma SideInOrder(lib: Lib, w: Wallet, offered: seq<Leg>, requested: seq<Requested>, inputs: seq<Input>,
                    changePh: Option<bytes>, fee: int, side: Side)
    returns (order: seq<Input>)
    requires BuildSide(lib, w, offered, requested, inputs, changePh, fee) == Ok(side)
    ensures SpentInOrder(lib, w, inputs, order, side.spends, side.signatures)
    ensures |order| > 0 && |offered| == 1
    ensures side.settlement == [Settlement(CoinId(lib.h, order[0].coin), offered[0].amount)]
    ensures multiset(SpentCoins(side.spends)) == multiset(InputCoins(inputs))
    ensures forall i, j :: 0 <= i < j < |side.spends| ==>
              BigEndian(CoinId(lib.h, side.spends[i].coin)) <= BigEndian(CoinId(lib.h, side.spends[j].coin))
    ensures forall i :: 0 <= i < |inputs| ==> BigEndian(side.settlement[0].parent) <= BigEndian(CoinId(lib.h, inputs[i].coin))
  {
    hide *;
    var owned, sorted, conds, payment, amount, change := BuiltSide(lib, w, offered, requested, inputs, changePh, fee, side);
    LegHash(offered, requested);
    OwnedInputs(lib, w, owned, inputs);
    order := InputsPermute(lib.h, owned, inputs);
    AssembledSorted(lib, w, side, sorted, conds);
    EverySpent(lib, w, side, owned, sorted, conds, inputs, order);
    FirstInput(order[0], sorted[0]);
    OrderSpends(lib, w, inputs, order, side.spends, side.signatures);
    LeastFirst(lib.h, inputs, order);
  }

  lemma OwnedInputs(lib: Lib, w: Wallet, owned: seq<Owned>, inputs: seq<Input>)
    requires |owned| == |inputs| && forall i :: 0 <= i < |inputs| ==> OwnedBy(lib, w, inputs[i], owned[i])
    ensures forall i :: 0 <= i < |inputs| ==> InputOf(owned[i]) == inputs[i]
  {
    hide TreeHash;
  }

  lemma FirstInput(inp: Input, o: Owned)
    requires inp == InputOf(o)
    ensures inp.coin == o.coin
  {}

  lemma OrderSpends(lib: Lib, w: Wallet, inputs: seq<Input>, order: seq<Input>, spends: seq<CoinSpend>, sigs: seq<Signature>)
    requires SpentInOrder(lib, w, inputs, order, spends, sigs)
    ensures multiset(SpentCoins(spends)) == multiset(InputCoins(inputs)) && |spends| == |order|
    ensures forall i, j :: 0 <= i < j < |spends| ==>
              BigEndian(CoinId(lib.h, spends[i].coin)) <= BigEndian(CoinId(lib.h, spends[j].coin))
  {
    hide CoinId, BigEndian, Tied, ParseConditions, ListOf, Deser;
    assert forall k :: 0 <= k < |order| ==> spends[k].coin == order[k].coin;
    hide SpentBy;
    var coinOf := (i: Input) => i.coin;
    ImagesPermute(order, inputs, coinOf);
    assert InputCoins(inputs) == Images(inputs, coinOf);
    assert SpentCoins(spends) == Images(order, coinOf);
  }

  lemma LeastFirst(h: Hash, inputs: seq<Input>, order: seq<Input>)
    requires multiset(order) == multiset(inputs) && order != [] && Ascending(h, order)
    ensures forall i :: 0 <= i < |inputs| ==> BigEndian(CoinId(h, order[0].coin)) <= BigEndian(CoinId(h, inputs[i].coin))
  {
    hide CoinId, BigEndian;
    forall i | 0 <= i < |inputs|
      ensures BigEndian(CoinId(h, order[0].coin)) <= BigEndian(CoinId(h, inputs[i].coin))
    {
      assert inputs[i] in multiset(order);
      var k :| 0 <= k < |order| && order[k] == inputs[i];
      assert k > 0 ==> BigEndian(CoinId(h, order[0].coin)) <= BigEndian(CoinId(h, order[k].coin));
    }
  }

  // ----- what a side says -----

  lemma {:induction false} OneByteInt(n: nat)
    requires 0 < n < 128
    ensures IntToBytes(n) == [n]
  {
    assert ByteLength(n) == 1;
    assert ToBytes(n, 1) == ToBytes(n / 256, 0) + [n % 256];
  }

  /** The conditions of a side's first spend, over atoms that are the shortest form of each number. */
  function Said(modHash: bytes, a: bytes, changePh: bytes, c: Option<bytes>, f: Option<bytes>, id: bytes): seq<Sexp>
  {
    [ListOf([Atom([51]), Atom(modHash), Atom(a)])]
    + (if c.Some? then [ListOf([Atom([51]), Atom(changePh), Atom(c.value)])] else [])
    + (if f.Some? then [ListOf([Atom([52]), Atom(f.value)])] else [])
    + [ListOf([Atom([63]), Atom(id)])]
  }

  lemma {:induction false} OriginSays(lib: Lib, amount: nat, changePh: bytes, change: nat, fee: nat, group: Sexp)
    ensures OriginConditions(lib, amount, changePh, change, fee, group) ==
            Said(ModHash(lib), IntToBytes(amount), changePh, if change > 0 then Some(IntToBytes(change)) else None,
                 if fee > 0 then Some(IntToBytes(fee)) else None, lib.h(ModHash(lib) + TreeHash(lib.h, group)))
  {
    OneByteInt(51);
    OneByteInt(52);
    OneByteInt(63);
    hide IntToBytes, ListOf, ModHash, TreeHash;
  }

  lemma {:induction false} GroupSays(nonce: bytes, p: Payment)
    requires NoDebts([p]) && p.memos == []
    ensures p.amount >= 0
    ensures Group(nonce, [p]) == Pair(Atom(nonce), ListOf([ListOf([Atom(p.ph), Atom(IntToBytes(p.amount)), NIL])]))
  {
    assert [p][0].amount >= 0;
    assert ListOf([]) == NIL;
    hide ListOf, IntToBytes;
    assert PaymentSexp(p) == ListOf([Atom(p.ph), Atom(IntToBytes(p.amount)), NIL]);
    assert seq(1, i requires 0 <= i < 1 => PaymentSexp([p][i])) == [PaymentSexp(p)];
  }

  /** An optional number: absent when zero, else in its shortest form. */
  ghost predicate ShortestIfAny(b: Option<bytes>, v: nat) {
    if v == 0 then b.None? else b.Some? && ShortestInt(b.value, v)
  }

  /** What a built side says: its first spend pays the settlement puzzle the offered amount, returns the
      change and reserves the fee where there is any, and asserts the announcement of its group; its other
      spends say nothing. Its one group, under the nonce of its coins, asks for the requested payment. */
  lemma {:induction false} SideSays(lib: Lib, w: Wallet, offered: seq<Leg>, requested: seq<Requested>, inputs: seq<Input>,
                                    changePh: Option<bytes>, fee: int, side: Side)
    returns (a: bytes, c: Option<bytes>, f: Option<bytes>, p: bytes)
    requires BuildSide(lib, w, offered, requested, inputs, changePh, fee) == Ok(side)
    ensures |offered| == |requested| == 1 && offered[0].amount > 0 && requested[0].amount > 0 && fee >= 0
    ensures changePh.Some? && side.spends != [] && Total(InputCoins(inputs)) >= offered[0].amount + fee
    ensures ShortestInt(a, offered[0].amount) && ShortestInt(p, requested[0].amount) && ShortestIfAny(f, fee)
    ensures ShortestIfAny(c, Total(InputCoins(inputs)) - offered[0].amount - fee)
    ensures side.nonce == OfferNonce(lib.h, InputCoins(inputs))
    ensures side.groups == [Pair(Atom(side.nonce), ListOf([ListOf([Atom(requested[0].ph), Atom(p), NIL])]))]
    ensures ParseConditions(side.spends[0].solution) ==
            Ok(Said(ModHash(lib), a, changePh.value, c, f, lib.h(ModHash(lib) + TreeHash(lib.h, side.groups[0]))))
    ensures forall k :: 0 < k < |side.spends| ==> ParseConditions(side.spends[k].solution) == Ok([])
  {
    hide *;
    var owned, sorted, conds, payment, amount, change := BuiltSide(lib, w, offered, requested, inputs, changePh, fee, side);
    LegHash(offered, requested);
    SameCoins(owned, inputs);
    AssembledSorted(lib, w, side, sorted, conds);
    GroupSays(side.nonce, payment);
    OriginSays(lib, amount, changePh.value, change, fee, side.groups[0]);
    a, p := IntToBytes(amount), IntToBytes(requested[0].amount);
    c := if change > 0 then Some(IntToBytes(change)) else None;
    f := if fee > 0 then Some(IntToBytes(fee)) else None;
    AnyShortest(c, change);
    AnyShortest(f, fee);
    PrintedShortest(amount);
    PrintedShortest(requested[0].amount);
    SpendInSide(lib, w, side, sorted, conds, 0);
    FirstSays(conds);
    forall k | 0 < k < |side.spends|
      ensures ParseConditions(side.spends[k].solution) == Ok([])
    {
      SpendInSide(lib, w, side, sorted, conds, k);
      OthersSay(conds, k);
    }
  }

  lemma AnyShortest(b: Option<bytes>, v: nat)
    requires b == if v > 0 then Some(IntToBytes(v)) else None
    ensures ShortestIfAny(b, v)
  {
    PrintedShortest(v);
    hide ShortestInt, IntToBytes;
  }

  lemma FirstSays(conds: seq<Sexp>)
    ensures CondsAt(conds, 0) == conds
  {}

  lemma OthersSay(conds: seq<Sexp>, k: nat)
    requires k > 0
    ensures CondsAt(conds, k) == []
  {}

  // ----- the bytes of a made offer -----

  /** A made offer is the string of version 6, the compressed bundle, whose id is its hash; the bundle
      holds the dummy spend of the settlement puzzle at the zero parent, the side's spends, and the
      aggregate of the side's signatures. */
  lemma MadeBytes(lib: Lib, w: Wallet, offered: seq<Leg>, requested: seq<Requested>, inputs: seq<Input>,
                  changePh: Option<bytes>, fee: int, prefix: string, built: Built)
    returns (side: Side, dummy: CoinSpend)
    requires MakeOffer(lib, w, offered, requested, inputs, changePh, fee, prefix) == Ok(built)
    ensures BuildSide(lib, w, offered, requested, inputs, changePh, fee) == Ok(side)
    ensures dummy.coin.amount == 0 && dummy.coin.puzzleHash == ModHash(lib)
    ensures |dummy.coin.parent| == 32 && forall i :: 0 <= i < 32 ==> dummy.coin.parent[i] == 0
    ensures Deser(dummy.puzzle) == Ok(lib.offerMod) && SettlementGroups(dummy) == Ok(side.groups)
    ensures forall s :: s in side.signatures ==> lib.isG2(s)
    ensures ReadBundle(lib.h, built.bundleBytes) == Ok(([dummy] + side.spends, lib.aggregate(side.signatures)))
    ensures built.offerId == lib.h(built.bundleBytes) && built.nonce == side.nonce
    ensures B.PlainHrp(prefix) ==> B.Decode(built.offerStr) == Ok((prefix, [0, 6] + lib.deflate(built.bundleBytes)))
  {
    hide *;
    side := MadeSide(lib, w, offered, requested, inputs, changePh, fee, prefix, built);
    var sig := OneSignature(lib, side, prefix, built);
    OfferParts(lib, side, prefix, built, sig);
    dummy := DummySpend(lib, side.groups).value;
    DummyIs(lib, side.groups, dummy);
    var owned, sorted, conds, payment, amount, change := BuiltSide(lib, w, offered, requested, inputs, changePh, fee, side);
    SideTied(lib, w, owned, sorted, conds, side);
    AllTiedWith(lib, dummy, side.spends);
    BundleCodec(lib.h, built.bundleBytes, [dummy] + side.spends, sig);
    if B.PlainHrp(prefix) {
      MadeText(lib, prefix, built.bundleBytes);
    }
  }

  lemma MadeSide(lib: Lib, w: Wallet, offered: seq<Leg>, requested: seq<Requested>, inputs: seq<Input>,
                 changePh: Option<bytes>, fee: int, prefix: string, built: Built)
    returns (side: Side)
    requires MakeOffer(lib, w, offered, requested, inputs, changePh, fee, prefix) == Ok(built)
    ensures BuildSide(lib, w, offered, requested, inputs, changePh, fee) == Ok(side) && OfferOf(lib, side, prefix) == Ok(built)
  {
    hide BuildSide, OfferOf;
    side := BuildSide(lib, w, offered, requested, inputs, changePh, fee).value;
  }

  lemma OneSignature(lib: Lib, side: Side, prefix: string, built: Built) returns (sig: Signature)
    requires OfferOf(lib, side, prefix) == Ok(built)
    ensures Aggregate(lib, side.signatures) == Ok(sig) && sig == lib.aggregate(side.signatures)
    ensures forall s :: s in side.signatures ==> lib.isG2(s)
  {
    hide DummySpend, SerializeBundle, Compress, B.Encode;
    sig := lib.aggregate(side.signatures);
  }

  lemma MadeText(lib: Lib, prefix: string, b: bytes)
    requires B.PlainHrp(prefix)
    ensures B.Decode(B.Encode(prefix, Compress(lib, b))) == Ok((prefix, [0, 6] + lib.deflate(b)))
  {
    hide B.Decode, B.Encode;
    B.RoundTrip(prefix, Compress(lib, b));
  }

  lemma DummyIs(lib: Lib, groups: seq<Sexp>, dummy: CoinSpend)
    requires DummySpend(lib, groups) == Ok(dummy)
    ensures dummy.coin.amount == 0 && dummy.coin.puzzleHash == ModHash(lib)
    ensures |dummy.coin.parent| == 32 && forall i :: 0 <= i < 32 ==> dummy.coin.parent[i] == 0
    ensures Deser(dummy.puzzle) == Ok(lib.offerMod) && SettlementGroups(dummy) == Ok(groups) && Tied(lib.h, dummy)
  {
    DeserPrinted(lib.offerMod);
    hide Deser, Print, Printable, ListOf, ItemsOf, TreeHash;
    SerRead(ListOf(groups), dummy.solution);
    ItemsOfList(groups);
  }

  // ----- the bytes of a take -----

  /** Every spend of a parsed offer is tied to its coin. */
  lemma ParsedTied(lib: Lib, text: string, offer: Parsed)
    requires ParseOffer(lib, text) == Ok(offer)
    ensures AllTied(lib.h, offer.spends)
  {
    ParseOfferIs(lib, text);
    hide B.Decode, Decompress, ReadBundle, SortSpends, AllTied, ParseOffer;
    var payload := B.Decode(text).value.1;
    var d := Decompress(lib, payload);
    var data := if d.Ok? then d.value else payload;
    var (spends, sig) := ReadBundle(lib.h, data).value;
    BundleCodec(lib.h, data, spends, sig);
    MakerTied(lib, spends);
  }

  lemma {:induction false} MakerTied(lib: Lib, spends: seq<CoinSpend>)
    requires AllTied(lib.h, spends) && SortSpends(lib, spends).Ok?
    ensures AllTied(lib.h, SortSpends(lib, spends).value.maker)
    decreases |spends|
  {
    hide ParseRequested, ParseConditions, Deser, ModHash, Tied, TreeHash;
    if spends != [] {
      var n := |spends| - 1;
      MakerTied(lib, spends[..n]);
    }
  }

  /** What a take hands out: the hash of the bundle is the transaction id, and the bundle reads as the
      spends of the take under one signature, the aggregate of the maker's and of one for every input. */
  ghost predicate HandsOut(lib: Lib, w: Wallet, offer: Parsed, inputs: seq<Input>, taken: Taken, order: seq<Input>,
                           sigs: seq<Signature>) {
    && |taken.spends| == 2 + |offer.spends| + |inputs|
    && SpentInOrder(lib, w, inputs, order, taken.spends[2 + |offer.spends|..], sigs)
    && (forall s :: s in [offer.signature] + sigs ==> lib.isG2(s))
    && ReadBundle(lib.h, taken.bundleBytes) == Ok((taken.spends, lib.aggregate([offer.signature] + sigs)))
    && taken.txid == lib.h(taken.bundleBytes)
  }

  lemma SpentTied(lib: Lib, w: Wallet, inputs: seq<Input>, order: seq<Input>, spends: seq<CoinSpend>, sigs: seq<Signature>)
    requires SpentInOrder(lib, w, inputs, order, spends, sigs)
    ensures AllTied(lib.h, spends) && |spends| == |inputs|
  {
    hide Tied, ParseConditions, ListOf, Deser, Ascending;
    assert |multiset(order)| == |order| && |multiset(inputs)| == |inputs|;
    forall i | 0 <= i < |spends|
      ensures Tied(lib.h, spends[i])
    {
      assert SpentBy(lib, w, order[i], spends[i], sigs[i]);
    }
  }

  lemma TakeTied(lib: Lib, all: seq<CoinSpend>, maker: seq<CoinSpend>, taker: seq<CoinSpend>)
    requires |all| == 2 + |maker| + |taker| && Tied(lib.h, all[0]) && Tied(lib.h, all[1 + |maker|])
    requires all[1..1 + |maker|] == maker && all[2 + |maker|..] == taker
    requires AllTied(lib.h, maker) && AllTied(lib.h, taker)
    ensures AllTied(lib.h, all)
  {
    hide Tied;
    var n := |maker|;
    forall i | 0 <= i < |all|
      ensures Tied(lib.h, all[i])
    {
      if 0 < i < 1 + n {
        assert all[i] == maker[i - 1];
      } else if i > 1 + n {
        assert all[i] == taker[i - n - 2];
      }
    }
  }

  /** Every take that returns, of an offer whose spends are tied, as in every parsed offer. */
  lemma TakeBytes(lib: Lib, w: Wallet, offer: Parsed, inputs: seq<Input>, receive: seq<Requested>,
                  changePh: Option<bytes>, fee: int, taken: Taken)
    returns (order: seq<Input>, sigs: seq<Signature>)
    requires TakeOffer(lib, w, offer, inputs, receive, changePh, fee) == Ok(taken) && AllTied(lib.h, offer.spends)
    ensures HandsOut(lib, w, offer, inputs, taken, order, sigs)
  {
    hide *;
    var m, t, side := TakeSettles(lib, w, offer, inputs, receive, changePh, fee, taken);
    TakerSideOf(lib, w, offer, inputs, receive, changePh, fee);
    order := SideInOrder(lib, w, [Leg(true, PaymentsTotal(offer.asked.payments))], receive, inputs, changePh, fee, side);
    sigs := side.signatures;
    SpentTied(lib, w, inputs, order, side.spends, sigs);
    TakeTied(lib, taken.spends, offer.spends, side.spends);
    BundleCodec(lib.h, taken.bundleBytes, taken.spends, lib.aggregate([offer.signature] + sigs));
    HandsOutIs(lib, w, offer, inputs, taken, side, order, sigs);
  }

  lemma HandsOutIs(lib: Lib, w: Wallet, offer: Parsed, inputs: seq<Input>, taken: Taken, side: Side, order: seq<Input>,
                   sigs: seq<Signature>)
    requires |taken.spends| == 2 + |offer.spends| + |inputs| && taken.spends[2 + |offer.spends|..] == side.spends
    requires SpentInOrder(lib, w, inputs, order, side.spends, sigs)
    requires forall s :: s in [offer.signature] + sigs ==> lib.isG2(s)
    requires ReadBundle(lib.h, taken.bundleBytes) == Ok((taken.spends, lib.aggregate([offer.signature] + sigs)))
    requires taken.txid == lib.h(taken.bundleBytes)
    ensures HandsOut(lib, w, offer, inputs, taken, order, sigs)
  {
    hide SpentInOrder, ReadBundle;
  }
}
