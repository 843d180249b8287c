/** Offers: one side of a native XCH offer, the offer string, and its parser. */
module Offer {
  import opened Wrappers
  import opened Bytes
  import opened Clvm
  import opened TreeHashing
  import opened Streamable
  import opened OfferBundle
  import opened OfferConditions
  import opened Sorting

  type Puzzle = x: Sexp | Printable(x) witness NIL
  type Signature = b: bytes | |b| == 96 witness seq(96, _ => 0)

  /** Foreign code: SHA-256, the settlement puzzle, BLS aggregation, zlib with the puzzle dictionary
      of a version (None when the stream is damaged, incomplete, followed by more, or above the cap). */
  datatype Lib = Lib(
    h: Hash,
    offerMod: Puzzle,
    isG2: Signature -> bool,
    aggregate: seq<Signature> -> Signature,
    deflate: bytes -> bytes,
    inflate: (nat, bytes) -> Option<bytes>)

  /** A wallet's keys, seen as the puzzles it can spend and the signatures it makes. */
  datatype Wallet = Wallet(
    standard: nat -> Puzzle,
    legacy: nat -> Puzzle,
    sign: (nat, Coin, Sexp) -> Signature)

  const COMPRESSION_VERSION := 6
  const MAX_OFFER_BYTES := 6 * 1024 * 1024

  /** Decompress after compress is the identity below the cap; honest signatures aggregate. */
  ghost predicate Lawful(lib: Lib) {
    && (forall b: bytes :: |b| < MAX_OFFER_BYTES ==> lib.inflate(COMPRESSION_VERSION, lib.deflate(b)) == Some(b))
    && (forall sigs: seq<Signature> :: (forall s :: s in sigs ==> lib.isG2(s)) ==> lib.isG2(lib.aggregate(sigs)))
  }

  ghost predicate SignsG2(lib: Lib, w: Wallet) {
    forall i: nat, c: Coin, x: Sexp :: lib.isG2(w.sign(i, c, x))
  }

  function ModHash(lib: Lib): Digest { TreeHash(lib.h, lib.offerMod) }

  /** The parent of a dummy spend's coin. */
  function ZeroParent(): (z: Digest)
    ensures forall i :: 0 <= i < 32 ==> z[i] == 0
  {
    seq(32, _ => 0)
  }

  function Aggregate(lib: Lib, sigs: seq<Signature>): Result<Signature>
  {
    if sigs == [] || exists s :: s in sigs && !lib.isG2(s) then Err else Ok(lib.aggregate(sigs))
  }

  // ----- nonce and groups -----

  datatype Payment = Payment(ph: bytes, amount: int, memos: seq<Sexp>)

  function IdKey(h: Hash): Coin -> nat { (c: Coin) => BigEndian(CoinId(h, c)) }

  function CoinInfo(c: Coin): Sexp
  {
    ListOf([Atom(c.parent), Atom(c.puzzleHash), Atom(IntToBytes(c.amount))])
  }

  function CoinInfos(coins: seq<Coin>): (infos: seq<Sexp>)
    ensures |infos| == |coins|
  {
    seq(|coins|, i requires 0 <= i < |coins| => CoinInfo(coins[i]))
  }

  /** The coins in the order of their ids: equal-length byte strings order as numbers. */
  function NonceTree(h: Hash, coins: seq<Coin>): Sexp
  {
    ListOf(CoinInfos(SortBy(coins, IdKey(h))))
  }

  function OfferNonce(h: Hash, coins: seq<Coin>): Digest
  {
    TreeHash(h, NonceTree(h, coins))
  }

  function PaymentSexp(p: Payment): Sexp
    requires p.amount >= 0
  {
    ListOf([Atom(p.ph), Atom(IntToBytes(p.amount)), ListOf(p.memos)])
  }

  predicate NoDebts(ps: seq<Payment>) { forall i :: 0 <= i < |ps| ==> ps[i].amount >= 0 }

  function Group(nonce: bytes, ps: seq<Payment>): Sexp
    requires NoDebts(ps)
  {
    Pair(Atom(nonce), ListOf(seq(|ps|, i requires 0 <= i < |ps| => PaymentSexp(ps[i]))))
  }

  /** `cs.deser(notarized_group(...))`: printing refuses negative amounts and long atoms. */
  function NotarizedGroup(nonce: bytes, ps: seq<Payment>): Result<Sexp>
  {
    if NoDebts(ps) && Printable(Group(nonce, ps)) then Ok(Group(nonce, ps)) else Err
  }

  function AnnouncementId(lib: Lib, group: Sexp): Digest
  {
    lib.h(ModHash(lib) + TreeHash(lib.h, group))
  }

  // ----- one side -----

  datatype Leg = Leg(native: bool, amount: int)
  datatype Requested = Requested(native: bool, ph: bytes, amount: int)

  predicate LegsOk(offered: seq<Leg>, requested: seq<Requested>) {
    && |offered| == 1 && offered[0].native && offered[0].amount > 0
    && |requested| == 1 && requested[0].native && |requested[0].ph| == 32 && requested[0].amount > 0
  }

  /** Native legs only, at least one and no asset twice: one leg on each side is what is left. */
  method ValidateLegs(offered: seq<Leg>, requested: seq<Requested>) returns (ok: bool)
    ensures ok == LegsOk(offered, requested)
  {
    if offered == [] || requested == [] {
      return false;
    }
    var seen := false;
    for i := 0 to |offered|
      invariant i <= 1 && seen == (i > 0) && (i > 0 ==> offered[0].native && offered[0].amount > 0)
    {
      if !offered[i].native || offered[i].amount <= 0 || seen {
        return false;
      }
      seen := true;
    }
    seen := false;
    for i := 0 to |requested|
      invariant i <= 1 && seen == (i > 0)
      invariant i > 0 ==> requested[0].native && |requested[0].ph| == 32 && requested[0].amount > 0
    {
      if !requested[i].native || |requested[i].ph| != 32 || requested[i].amount <= 0 || seen {
        return false;
      }
      seen := true;
    }
    return true;
  }

  datatype Input = Input(coin: Coin, index: nat)

  /** An input proved ours, with the puzzle that hashes to its puzzle hash. */
  datatype Owned = Owned(coin: Coin, puzzle: Puzzle, index: nat)

  function CheckInput(lib: Lib, w: Wallet, inp: Input): Result<Owned>
  {
    var s, l := w.standard(inp.index), w.legacy(inp.index);
    var puzzle :- if TreeHash(lib.h, s) == inp.coin.puzzleHash then Ok(s)
                  else if TreeHash(lib.h, l) == inp.coin.puzzleHash then Ok(l) else Err;
    if |inp.coin.parent| != 32 || inp.coin.amount == 0 then Err else Ok(Owned(inp.coin, puzzle, inp.index))
  }

  function CheckInputs(lib: Lib, w: Wallet, inputs: seq<Input>): (r: Result<seq<Owned>>)
    ensures r.Ok? ==> |r.value| == |inputs|
  {
    if inputs == [] then Ok([])
    else
      var n := |inputs| - 1;
      var before :- CheckInputs(lib, w, inputs[..n]);
      var last :- CheckInput(lib, w, inputs[n]);
      Ok(before + [last])
  }

  function Total(coins: seq<Coin>): nat
  {
    if coins == [] then 0 else Total(coins[..|coins| - 1]) + coins[|coins| - 1].amount
  }

  function OwnedCoins(owned: seq<Owned>): (coins: seq<Coin>)
    ensures |coins| == |owned|
  {
    seq(|owned|, i requires 0 <= i < |owned| => owned[i].coin)
  }

  function OwnedKey(h: Hash): Owned -> nat { (o: Owned) => BigEndian(CoinId(h, o.coin)) }

  function OriginConditions(lib: Lib, amount: nat, changePh: bytes, change: nat, fee: nat, group: Sexp): seq<Sexp>
  {
    [CreateCoin(ModHash(lib), amount)]
    + (if change > 0 then [CreateCoin(changePh, change)] else [])
    + (if fee > 0 then [ReserveFee(fee)] else [])
    + [AssertAnnouncement(lib.h, ModHash(lib), TreeHash(lib.h, group))]
  }

  function SpendOf(o: Owned, conds: seq<Sexp>): Result<CoinSpend>
  {
    var solution :- Ser(StandardSolution(ListOf(conds)));
    Ok(CoinSpend(o.coin, Print(o.puzzle), solution))
  }

  /** The first coin carries the conditions, every other coin none. */
  function SpendsOf(owned: seq<Owned>, conds: seq<Sexp>): (r: Result<seq<CoinSpend>>)
    ensures r.Ok? ==> |r.value| == |owned|
    decreases |owned|
  {
    if owned == [] then Ok([])
    else
      var n := |owned| - 1;
      var before :- SpendsOf(owned[..n], conds);
      var last :- SpendOf(owned[n], if n == 0 then conds else []);
      Ok(before + [last])
  }

  function Signatures(w: Wallet, owned: seq<Owned>, conds: seq<Sexp>): (sigs: seq<Signature>)
    ensures |sigs| == |owned|
  {
    seq(|owned|, i requires 0 <= i < |owned| =>
      w.sign(owned[i].index, owned[i].coin, ListOf(if i == 0 then conds else [])))
  }

  /** A settlement coin: the spend that creates it and its amount. */
  datatype Settlement = Settlement(parent: Digest, amount: int)

  datatype Side = Side(spends: seq<CoinSpend>, signatures: seq<Signature>, settlement: seq<Settlement>, groups: seq<Sexp>,
                       nonce: Digest)

  /** The side that offers `amount`, from inputs already checked. */
  function SideOf(lib: Lib, w: Wallet, amount: nat, payment: Payment, owned: seq<Owned>, changePh: bytes, fee: nat): Result<Side>
    requires owned != [] && amount + fee <= Total(OwnedCoins(owned))
  {
    var nonce := OfferNonce(lib.h, OwnedCoins(owned));
    var group :- NotarizedGroup(nonce, [payment]);
    var sorted := SortBy(owned, OwnedKey(lib.h));
    var conds := OriginConditions(lib, amount, changePh, Total(OwnedCoins(owned)) - amount - fee, fee, group);
    var spends :- SpendsOf(sorted, conds);
    Ok(Side(spends, Signatures(w, sorted, conds), [Settlement(CoinId(lib.h, sorted[0].coin), amount)], [group], nonce))
  }

  /** `_build_side` */
  function BuildSide(lib: Lib, w: Wallet, offered: seq<Leg>, requested: seq<Requested>, inputs: seq<Input>,
                     changePh: Option<bytes>, fee: int): Result<Side>
  {
    if fee < 0 || !LegsOk(offered, requested) then Err
    else
      var owned :- CheckInputs(lib, w, inputs);
      if owned == [] || changePh.None? || Total(OwnedCoins(owned)) < offered[0].amount + fee then Err
      else
        SideOf(lib, w, offered[0].amount, Payment(requested[0].ph, requested[0].amount, []), owned, changePh.value, fee)
  }

  lemma {:induction false} TotalAdd(coins: seq<Coin>, c: Coin)
    ensures Total(coins + [c]) == Total(coins) + c.amount
  {
    assert (coins + [c])[..|coins|] == coins;
  }

  lemma OwnedCoinsAdd(owned: seq<Owned>, o: Owned)
    ensures OwnedCoins(owned + [o]) == OwnedCoins(owned) + [o.coin]
  {}

  /** Checks every input and sums the amounts. */
  method CheckAll(lib: Lib, w: Wallet, inputs: seq<Input>) returns (r: Result<seq<Owned>>, total: nat)
    ensures r == CheckInputs(lib, w, inputs)
    ensures r.Ok? ==> total == Total(OwnedCoins(r.value))
  {
    hide CheckInput, OwnedCoins, Total;
    var owned: seq<Owned> := [];
    total := 0;
    assert inputs[..0] == [];
    NoCoins();
    for i := 0 to |inputs|
      invariant CheckInputs(lib, w, inputs[..i]) == Ok(owned) && total == Total(OwnedCoins(owned))
    {
      CheckedPrefix(lib, w, inputs, i);
      var o := CheckInput(lib, w, inputs[i]);
      if o.Err? {
        return Err, 0;
      }
      OwnedCoinsAdd(owned, o.value);
      TotalAdd(OwnedCoins(owned), o.value.coin);
      owned, total := owned + [o.value], total + o.value.coin.amount;
    }
    assert inputs[..|inputs|] == inputs;
    r := Ok(owned);
  }

  lemma NoCoins()
    ensures Total(OwnedCoins([])) == 0
  {}

  /** Builds one spend after another; the first coin creates the settlement coin. */
  method BuildSpends(lib: Lib, w: Wallet, sorted: seq<Owned>, conds: seq<Sexp>, amount: nat)
    returns (r: Result<(seq<CoinSpend>, seq<Signature>, seq<Settlement>)>)
    requires sorted != []
    ensures r == (var spends :- SpendsOf(sorted, conds);
                  Ok((spends, Signatures(w, sorted, conds), [Settlement(CoinId(lib.h, sorted[0].coin), amount)])))
  {
    hide SpendOf, Signatures;
    var spends: seq<CoinSpend> := [];
    var sigs: seq<Signature> := [];
    var settlement: seq<Settlement> := [];
    assert sorted[..0] == [];
    SignaturesAt(w, sorted, conds, 0);
    for pos := 0 to |sorted|
      invariant SpendsOf(sorted[..pos], conds) == Ok(spends)
      invariant |sigs| == pos && sigs == Signatures(w, sorted, conds)[..pos]
      invariant settlement == if pos == 0 then [] else [Settlement(CoinId(lib.h, sorted[0].coin), amount)]
    {
      SpendsPrefix(sorted, conds, pos);
      SignaturesAt(w, sorted, conds, pos);
      var mine := if pos == 0 then conds else [];
      if pos == 0 {
        settlement := settlement + [Settlement(CoinId(lib.h, sorted[pos].coin), amount)];
      }
      var s := SpendOf(sorted[pos], mine);
      if s.Err? {
        return Err;
      }
      spends := spends + [s.value];
      sigs := sigs + [w.sign(sorted[pos].index, sorted[pos].coin, ListOf(mine))];
    }
    assert sorted[..|sorted|] == sorted && Signatures(w, sorted, conds)[..|sorted|] == Signatures(w, sorted, conds);
    return Ok((spends, sigs, settlement));
  }

  lemma {:induction false} SignaturesAt(w: Wallet, owned: seq<Owned>, conds: seq<Sexp>, i: nat)
    requires i < |owned|
    ensures Signatures(w, owned, conds)[i] == w.sign(owned[i].index, owned[i].coin, ListOf(if i == 0 then conds else []))
  {}

  method BuildSideLoops(lib: Lib, w: Wallet, offered: seq<Leg>, requested: seq<Requested>, inputs: seq<Input>,
                        changePh: Option<bytes>, fee: int) returns (r: Result<Side>)
    ensures r == BuildSide(lib, w, offered, requested, inputs, changePh, fee)
  {
    hide CheckInputs, NotarizedGroup, SpendsOf, Signatures, OriginConditions, SortBy, Total;
    if fee < 0 {
      return Err;
    }
    var ok := ValidateLegs(offered, requested);
    if !ok {
      return Err;
    }
    var checked, total := CheckAll(lib, w, inputs);
    if checked.Err? {
      return Err;
    }
    var owned := checked.value;
    var amount: nat := offered[0].amount;
    if owned == [] || changePh.None? || total < amount + fee {
      return Err;
    }
    var nonce := OfferNonce(lib.h, OwnedCoins(owned));
    var group := NotarizedGroup(nonce, [Payment(requested[0].ph, requested[0].amount, [])]);
    if group.Err? {
      return Err;
    }
    var sorted := SortBy(owned, OwnedKey(lib.h));
    var conds := OriginConditions(lib, amount, changePh.value, total - amount - fee, fee, group.value);
    var built := BuildSpends(lib, w, sorted, conds, amount);
    if built.Err? {
      return Err;
    }
    var (spends, sigs, settlement) := built.value;
    return Ok(Side(spends, sigs, settlement, [group.value], nonce));
  }

  lemma {:induction false} CheckedPrefix(lib: Lib, w: Wallet, inputs: seq<Input>, i: nat)
    requires i < |inputs|
    ensures CheckInputs(lib, w, inputs).Ok? ==> CheckInputs(lib, w, inputs[..i + 1]).Ok?
    ensures CheckInputs(lib, w, inputs[..i + 1]) ==
            (var before :- CheckInputs(lib, w, inputs[..i]);
             var last :- CheckInput(lib, w, inputs[i]);
             Ok(before + [last]))
    decreases |inputs|
  {
    hide CheckInput;
    assert inputs[..i + 1][..i] == inputs[..i];
    var n := |inputs| - 1;
    if i < n {
      CheckedPrefix(lib, w, inputs[..n], i);
      assert inputs[..n][..i + 1] == inputs[..i + 1] && inputs[..n][..i] == inputs[..i];
    } else {
      assert inputs[..i + 1] == inputs;
    }
  }

  lemma {:induction false} SpendsPrefix(owned: seq<Owned>, conds: seq<Sexp>, i: nat)
    requires i < |owned|
    ensures SpendsOf(owned, conds).Ok? ==> SpendsOf(owned[..i + 1], conds).Ok?
    ensures SpendsOf(owned[..i + 1], conds) ==
            (var before :- SpendsOf(owned[..i], conds);
             var last :- SpendOf(owned[i], if i == 0 then conds else []);
             Ok(before + [last]))
    decreases |owned|
  {
    hide SpendOf;
    assert owned[..i + 1][..i] == owned[..i];
    var n := |owned| - 1;
    if i < n {
      SpendsPrefix(owned[..n], conds, i);
      assert owned[..n][..i + 1] == owned[..i + 1] && owned[..n][..i] == owned[..i];
    } else {
      assert owned[..i + 1] == owned;
    }
  }
}
