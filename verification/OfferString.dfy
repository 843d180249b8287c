/** Making an offer string and parsing one. */
module OfferString {
  import opened Wrappers
  import opened Bytes
  import opened Clvm
  import opened TreeHashing
  import opened Streamable
  import opened OfferBundle
  import opened OfferConditions
  import opened Offer
  import B = Bech32mText

  // ----- compression -----

  function Compress(lib: Lib, b: bytes): bytes
  {
    [0, COMPRESSION_VERSION] + lib.deflate(b)
  }

  /** Unknown versions are refused, and version 0 has no dictionary. */
  function Decompress(lib: Lib, blob: bytes): Result<bytes>
  {
    if |blob| < 2 then Err
    else
      var version := BigEndian(blob[..2]);
      if version == 0 || version > COMPRESSION_VERSION then Err
      else
        var out := lib.inflate(version, blob[2..]);
        if out.Some? then Ok(out.value) else Err
  }

  lemma DecompressCompressed(lib: Lib, b: bytes)
    requires Lawful(lib) && |b| < MAX_OFFER_BYTES
    ensures Decompress(lib, Compress(lib, b)) == Ok(b)
  {
    var blob := Compress(lib, b);
    assert blob[..2] == [0, 6] && blob[2..] == lib.deflate(b);
    assert [0, 6][..1] == [0] && BigEndian([0, 6]) == BigEndian([0]) * 256 + 6;
    assert BigEndian([0]) == BigEndian([]) * 256 + 0;
  }

  /** Versions 1 to 6 are known, and each is told to the decompressor. */
  lemma DecompressExactly(lib: Lib, blob: bytes, b: bytes)
    ensures Decompress(lib, blob) == Ok(b) <==>
            && |blob| >= 2 && 1 <= (blob[0] as nat) * 256 + blob[1] <= 6
            && lib.inflate((blob[0] as nat) * 256 + blob[1], blob[2..]) == Some(b)
  {
    if |blob| >= 2 {
      var two := blob[..2];
      assert two[..1] == [blob[0]] && [blob[0]][..0] == [];
      assert BigEndian([]) == 0 && BigEndian([blob[0]]) == BigEndian([]) * 256 + blob[0];
      assert BigEndian(two) == BigEndian(two[..1]) * 256 + two[1];
    }
  }

  // ----- make -----

  /** The spend that carries the requested payments: parent all zero, amount zero. */
  function DummySpend(lib: Lib, groups: seq<Sexp>): Result<CoinSpend>
  {
    var solution :- Ser(ListOf(groups));
    Ok(CoinSpend(Coin(ZeroParent(), ModHash(lib), 0), Print(lib.offerMod), solution))
  }

  datatype Built = Built(offerStr: string, offerId: Digest, bundleBytes: bytes, nonce: Digest)

  /** A side as an offer: the bundle with its dummy spend, compressed and written in bech32m. */
  function OfferOf(lib: Lib, side: Side, prefix: string): Result<Built>
  {
    var dummy :- DummySpend(lib, side.groups);
    var sig :- Aggregate(lib, side.signatures);
    var data :- SerializeBundle([dummy] + side.spends, sig);
    Ok(Built(B.Encode(prefix, Compress(lib, data)), lib.h(data), data, side.nonce))
  }

  /** `make_offer` */
  function MakeOffer(lib: Lib, w: Wallet, offered: seq<Leg>, requested: seq<Requested>, inputs: seq<Input>,
                     changePh: Option<bytes>, fee: int, prefix: string): Result<Built>
  {
    var side :- BuildSide(lib, w, offered, requested, inputs, changePh, fee);
    OfferOf(lib, side, prefix)
  }

  // ----- requested payments -----

  function ReadPayment(x: Sexp): Result<Payment>
  {
    var args :- ItemsOf(x);
    if |args| < 2 || !args[0].Atom? || |args[0].b| != 32 then Err
    else
      var memos :- if |args| > 2 then ItemsOf(args[2]) else Ok([]);
      var amount :- AtomValue(args[1]);
      Ok(Payment(args[0].b, amount, memos))
  }

  function ReadPayments(xs: seq<Sexp>): (r: Result<seq<Payment>>)
    ensures r.Ok? ==> |r.value| == |xs|
  {
    if xs == [] then Ok([])
    else
      var first :- ReadPayment(xs[0]);
      var rest :- ReadPayments(xs[1..]);
      Ok([first] + rest)
  }

  /** The payments of one group, whose nonce must be `nonce`. */
  function ReadGroup(g: Sexp, nonce: bytes): Result<seq<Payment>>
  {
    if g.Pair? && g.first == Atom(nonce) then
      var items :- ItemsOf(g.rest);
      ReadPayments(items)
    else Err
  }

  function ReadGroups(groups: seq<Sexp>, nonce: bytes): Result<seq<Payment>>
  {
    if groups == [] then Ok([])
    else
      var first :- ReadGroup(groups[0], nonce);
      var rest :- ReadGroups(groups[1..], nonce);
      Ok(first + rest)
  }

  /** What a dummy spend asks for: one nonce, its payments, and the groups as they stand. */
  datatype Asked = Asked(nonce: bytes, payments: seq<Payment>, groups: seq<Sexp>)

  /** `parse_requested_payments` */
  function ParseRequested(solution: bytes): Result<Asked>
  {
    var x :- Deser(solution);
    var groups :- ItemsOf(x);
    if groups == [] || !groups[0].Pair? || !groups[0].first.Atom? || |groups[0].first.b| != 32 then Err
    else
      var nonce := groups[0].first.b;
      var payments :- ReadGroups(groups, nonce);
      Ok(Asked(nonce, payments, groups))
  }

  // ----- parse -----

  /** The legs found so far: what is asked for, and the maker's own spends. */
  datatype Legs = Legs(asked: Option<Asked>, maker: seq<CoinSpend>)

  function AddSpend(lib: Lib, legs: Legs, s: CoinSpend): Result<Legs>
  {
    if s.coin.parent == ZeroParent() then
      var x :- Deser(s.puzzle);
      if TreeHash(lib.h, x) != ModHash(lib) || legs.asked.Some? then Err
      else
        var asked :- ParseRequested(s.solution);
        Ok(legs.(asked := Some(asked)))
    else
      var conds :- ParseConditions(s.solution);
      Ok(legs.(maker := legs.maker + [s]))
  }

  function SortSpends(lib: Lib, spends: seq<CoinSpend>): Result<Legs>
  {
    if spends == [] then Ok(Legs(None, []))
    else
      var n := |spends| - 1;
      var legs :- SortSpends(lib, spends[..n]);
      AddSpend(lib, legs, spends[n])
  }

  datatype Parsed = Parsed(asked: Asked, spends: seq<CoinSpend>, signature: Signature, bundleBytes: bytes, offerId: Digest)

  function ParsePayload(lib: Lib, payload: bytes): Result<Parsed>
  {
    var d := Decompress(lib, payload);
    var data := if d.Ok? then d.value else payload;
    var (spends, sig) :- ReadBundle(lib.h, data);
    var legs :- SortSpends(lib, spends);
    if legs.asked.None? || legs.maker == [] || |sig| != 96 then Err
    else Ok(Parsed(legs.asked.value, legs.maker, sig, data, lib.h(data)))
  }

  /** `parse_offer`: compressed, or as a fallback raw. */
  function ParseOffer(lib: Lib, s: string): Result<Parsed>
  {
    var (hrp, payload) :- B.Decode(s);
    ParsePayload(lib, payload)
  }

  lemma {:induction false} SortedPrefix(lib: Lib, spends: seq<CoinSpend>, i: nat)
    requires i < |spends|
    ensures SortSpends(lib, spends).Ok? ==> SortSpends(lib, spends[..i + 1]).Ok?
    ensures SortSpends(lib, spends[..i + 1]) ==
            (var legs :- SortSpends(lib, spends[..i]);
             AddSpend(lib, legs, spends[i]))
    decreases |spends|
  {
    hide AddSpend;
    assert spends[..i + 1][..i] == spends[..i];
    var n := |spends| - 1;
    if i < n {
      SortedPrefix(lib, spends[..n], i);
      assert spends[..n][..i + 1] == spends[..i + 1] && spends[..n][..i] == spends[..i];
    } else {
      assert spends[..i + 1] == spends;
    }
  }

  /** The loop of the parser: a dummy spend fills the requested leg once, the rest are the maker's. */
  method ParseOfferLoop(lib: Lib, s: string) returns (r: Result<Parsed>)
    ensures r == ParseOffer(lib, s)
  {
    hide ParseOffer, ParsePayload, ParseRequested, ParseConditions, ReadBundle, Decompress, Deser, ModHash, SortSpends,
         AddSpend, TreeHash, B.Decode;
    ParseOfferIs(lib, s);
    var decoded := B.Bech32mDecode(s);
    if decoded.Err? {
      return Err;
    }
    var payload := decoded.value.1;
    var d := Decompress(lib, payload);
    var data := if d.Ok? then d.value else payload;
    var bundle := ParseSolutionsBundle(lib.h, data);
    if bundle.Err? {
      return Err;
    }
    var (spends, sig) := bundle.value;
    var asked: Option<Asked> := None;
    var maker: seq<CoinSpend> := [];
    NothingSorted(lib, spends);
    for i := 0 to |spends|
      invariant SortSpends(lib, spends[..i]) == Ok(Legs(asked, maker))
    {
      SortedPrefix(lib, spends, i);
      var spend := spends[i];
      AddSpendIs(lib, asked, maker, spend);
      if spend.coin.parent == ZeroParent() {
        var x := Deser(spend.puzzle);
        if x.Err? || TreeHash(lib.h, x.value) != ModHash(lib) || asked.Some? {
          return Err;
        }
        var a := ParseRequested(spend.solution);
        if a.Err? {
          return Err;
        }
        asked := Some(a.value);
      } else {
        var conds := ParseConditions(spend.solution);
        if conds.Err? {
          return Err;
        }
        maker := maker + [spend];
      }
    }
    assert spends[..|spends|] == spends;
    if asked.None? || maker == [] || |sig| != 96 {
      return Err;
    }
    return Ok(Parsed(asked.value, maker, sig, data, lib.h(data)));
  }

  /** The parser, one failure after another. */
  lemma {:induction false} ParseOfferIs(lib: Lib, s: string)
    ensures var decoded := B.Decode(s);
            ParseOffer(lib, s) ==
            if decoded.Err? then Err
            else
              (var d := Decompress(lib, decoded.value.1);
               var data := if d.Ok? then d.value else decoded.value.1;
               var bundle := ReadBundle(lib.h, data);
               if bundle.Err? then Err
               else
                 (var legs := SortSpends(lib, bundle.value.0);
                  var sig := bundle.value.1;
                  if legs.Err? || legs.value.asked.None? || legs.value.maker == [] || |sig| != 96 then Err
                  else Ok(Parsed(legs.value.asked.value, legs.value.maker, sig, data, lib.h(data)))))
  {
    hide B.Decode, Decompress, ReadBundle, SortSpends;
  }

  lemma AddSpendIs(lib: Lib, asked: Option<Asked>, maker: seq<CoinSpend>, s: CoinSpend)
    ensures AddSpend(lib, Legs(asked, maker), s) ==
            if s.coin.parent == ZeroParent() then
              (var x := Deser(s.puzzle);
               var a := ParseRequested(s.solution);
               if x.Err? || TreeHash(lib.h, x.value) != ModHash(lib) || asked.Some? || a.Err? then Err
               else Ok(Legs(Some(a.value), maker)))
            else if ParseConditions(s.solution).Err? then Err
            else Ok(Legs(asked, maker + [s]))
  {
    hide ParseRequested, ParseConditions, Deser, ModHash, TreeHash;
  }

  lemma {:induction false} NothingSorted(lib: Lib, spends: seq<CoinSpend>)
    ensures SortSpends(lib, spends[..0]) == Ok(Legs(None, []))
  {}

  // ----- which bundles are offers -----

  /** The settlement puzzle's spend at the zero parent, whose solution asks for `asked`. */
  predicate AsksAt(lib: Lib, s: CoinSpend, asked: Asked) {
    && s.coin.parent == ZeroParent() && ParseRequested(s.solution) == Ok(asked)
    && var x := Deser(s.puzzle); x.Ok? && TreeHash(lib.h, x.value) == ModHash(lib)
  }

  /** A standard spend of a real coin. */
  predicate Standard(s: CoinSpend) { s.coin.parent != ZeroParent() && ParseConditions(s.solution).Ok? }

  predicate AllStandard(spends: seq<CoinSpend>) { forall i :: 0 <= i < |spends| ==> Standard(spends[i]) }

  /** The spend at `k` asks and all others, in their order, are the maker's. */
  ghost predicate AsksOnce(lib: Lib, spends: seq<CoinSpend>, k: nat, asked: Asked, maker: seq<CoinSpend>) {
    && k < |spends| && AsksAt(lib, spends[k], asked)
    && maker == spends[..k] + spends[k + 1..] && AllStandard(maker)
  }

  lemma {:induction false} NoneYet(lib: Lib, legs: Legs, s: CoinSpend, maker: seq<CoinSpend>)
    ensures AddSpend(lib, legs, s) == Ok(Legs(None, maker)) <==>
            legs.asked.None? && Standard(s) && maker == legs.maker + [s]
  {
    hide ParseRequested, ParseConditions, Deser, TreeHash, ModHash;
  }

  lemma {:induction false} NoneAsks(lib: Lib, spends: seq<CoinSpend>, maker: seq<CoinSpend>)
    ensures SortSpends(lib, spends) == Ok(Legs(None, maker)) <==> AllStandard(spends) && maker == spends
    decreases |spends|
  {
    hide AddSpend, Standard;
    if spends != [] {
      var n := |spends| - 1;
      var before := SortSpends(lib, spends[..n]);
      if before.Ok? {
        NoneYet(lib, before.value, spends[n], maker);
        NoneAsks(lib, spends[..n], before.value.maker);
      }
      NoneAsks(lib, spends[..n], spends[..n]);
      NoneYet(lib, Legs(None, spends[..n]), spends[n], maker);
      assert AllStandard(spends) <==> AllStandard(spends[..n]) && Standard(spends[n]);
      assert spends == spends[..n] + [spends[n]];
    }
  }

  lemma {:induction false} AskerLast(lib: Lib, spends: seq<CoinSpend>, s: CoinSpend, asked: Asked, maker: seq<CoinSpend>)
    requires AsksAt(lib, s, asked)
    ensures SortSpends(lib, spends + [s]) == Ok(Legs(Some(asked), maker)) <==> AllStandard(spends) && maker == spends
  {
    hide ParseRequested, ParseConditions, Deser, TreeHash, ModHash, AllStandard;
    assert (spends + [s])[..|spends|] == spends;
    NoneAsks(lib, spends, maker);
  }

  lemma {:induction false} StandardLast(lib: Lib, spends: seq<CoinSpend>, s: CoinSpend, asked: Asked, maker: seq<CoinSpend>)
    requires Standard(s)
    ensures SortSpends(lib, spends + [s]) == Ok(Legs(Some(asked), maker)) <==>
            maker != [] && maker[|maker| - 1] == s && SortSpends(lib, spends) == Ok(Legs(Some(asked), maker[..|maker| - 1]))
  {
    hide ParseRequested, ParseConditions, Deser, TreeHash, ModHash;
    assert (spends + [s])[..|spends|] == spends;
    if maker != [] {
      assert maker == maker[..|maker| - 1] + [maker[|maker| - 1]];
    }
  }

  lemma {:induction false} OtherLast(lib: Lib, spends: seq<CoinSpend>, s: CoinSpend, asked: Asked, maker: seq<CoinSpend>)
    requires SortSpends(lib, spends + [s]) == Ok(Legs(Some(asked), maker))
    ensures AsksAt(lib, s, asked) || Standard(s)
  {
    hide ParseRequested, ParseConditions, Deser, TreeHash, ModHash;
  }

  lemma {:induction false} AskedEarlier(lib: Lib, spends: seq<CoinSpend>, s: CoinSpend, k: nat, asked: Asked, maker: seq<CoinSpend>)
    requires k < |spends| && AsksOnce(lib, spends + [s], k, asked, maker)
    ensures maker != [] && maker[|maker| - 1] == s && Standard(s) && AsksOnce(lib, spends, k, asked, maker[..|maker| - 1])
  {
    hide AsksAt, Standard;
    var all := spends + [s];
    assert all[k + 1..] == spends[k + 1..] + [s] && all[..k] == spends[..k];
    assert maker == spends[..k] + spends[k + 1..] + [s];
    assert Standard(maker[|maker| - 1]);
    assert maker[..|maker| - 1] == spends[..k] + spends[k + 1..];
  }

  lemma {:induction false} AskedStill(lib: Lib, spends: seq<CoinSpend>, s: CoinSpend, k: nat, asked: Asked, maker: seq<CoinSpend>)
    requires AsksOnce(lib, spends, k, asked, maker) && Standard(s)
    ensures AsksOnce(lib, spends + [s], k, asked, maker + [s])
  {
    hide AsksAt, Standard;
    var all := spends + [s];
    assert all[k + 1..] == spends[k + 1..] + [s] && all[..k] == spends[..k];
    assert maker + [s] == all[..k] + all[k + 1..];
  }

  lemma {:induction false} AskedAtEnd(lib: Lib, spends: seq<CoinSpend>, s: CoinSpend, asked: Asked, maker: seq<CoinSpend>)
    ensures AsksOnce(lib, spends + [s], |spends|, asked, maker) <==>
            AsksAt(lib, s, asked) && AllStandard(spends) && maker == spends
  {
    hide AsksAt, AllStandard;
    var all := spends + [s];
    assert all[..|spends|] == spends && all[|spends| + 1..] == [] && all[|spends|] == s && spends + [] == spends;
  }

  lemma NotBoth(lib: Lib, s: CoinSpend, asked: Asked)
    requires AsksAt(lib, s, asked)
    ensures !Standard(s)
  {
    hide ParseRequested, ParseConditions, Deser, TreeHash;
  }

  /** The spends of a bundle are an offer exactly when one of them asks and every other is a standard
      spend of a real coin; those are the maker's, in their order. */
  lemma {:induction false} SortedExactly(lib: Lib, spends: seq<CoinSpend>, asked: Asked, maker: seq<CoinSpend>)
    ensures SortSpends(lib, spends) == Ok(Legs(Some(asked), maker)) <==>
            exists k :: 0 <= k < |spends| && AsksOnce(lib, spends, k, asked, maker)
    decreases |spends|
  {
    hide SortSpends, AsksAt, Standard, AllStandard, AsksOnce;
    if spends == [] {
      NothingSorted(lib, spends);
      assert spends[..0] == spends;
    } else {
      var n := |spends| - 1;
      var front, s := spends[..n], spends[n];
      assert spends == front + [s];
      AskedAtEnd(lib, front, s, asked, maker);
      if AsksAt(lib, s, asked) {
        NotBoth(lib, s, asked);
        AskerLast(lib, front, s, asked, maker);
        if k :| 0 <= k < n && AsksOnce(lib, spends, k, asked, maker) {
          AskedEarlier(lib, front, s, k, asked, maker);
          assert false;
        }
      } else if Standard(s) {
        StandardLast(lib, front, s, asked, maker);
        if SortSpends(lib, spends) == Ok(Legs(Some(asked), maker)) {
          var before := maker[..|maker| - 1];
          SortedExactly(lib, front, asked, before);
          var k :| 0 <= k < n && AsksOnce(lib, front, k, asked, before);
          AskedStill(lib, front, s, k, asked, before);
          assert before + [s] == maker;
        }
        if k :| 0 <= k < n && AsksOnce(lib, spends, k, asked, maker) {
          AskedEarlier(lib, front, s, k, asked, maker);
          SortedExactly(lib, front, asked, maker[..|maker| - 1]);
        }
      } else {
        if SortSpends(lib, spends) == Ok(Legs(Some(asked), maker)) {
          OtherLast(lib, front, s, asked, maker);
        }
        if k :| 0 <= k < n && AsksOnce(lib, spends, k, asked, maker) {
          AskedEarlier(lib, front, s, k, asked, maker);
        }
      }
    }
  }

  /** What is an offer: a compressed bundle, or as a fallback a bundle as it stands, with one asking
      spend, a standard spend or more, and 96 bytes of signature. */
  lemma {:induction false} PayloadExactly(lib: Lib, payload: bytes, offer: Parsed)
    ensures ParsePayload(lib, payload) == Ok(offer) <==>
            && Decompress(lib, payload) == (if Decompress(lib, payload).Ok? then Ok(offer.bundleBytes) else Err)
            && (Decompress(lib, payload).Err? ==> offer.bundleBytes == payload)
            && offer.offerId == lib.h(offer.bundleBytes) && offer.spends != []
            && exists spends, k ::
                 && ReadBundle(lib.h, offer.bundleBytes) == Ok((spends, offer.signature))
                 && 0 <= k < |spends| && AsksOnce(lib, spends, k, offer.asked, offer.spends)
  {
    hide Decompress, ReadBundle, SortSpends, AsksOnce;
    var d := Decompress(lib, payload);
    var data := if d.Ok? then d.value else payload;
    var r := ReadBundle(lib.h, data);
    if r.Ok? {
      SortedExactly(lib, r.value.0, offer.asked, offer.spends);
    }
  }
}
