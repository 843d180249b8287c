/** The wallet's own spend bundle reader: every puzzle reveal must hash to its coin's puzzle hash. */
module OfferBundle {
  import opened Wrappers
  import opened Bytes
  import opened Clvm
  import opened ClvmWalk
  import opened TreeHashing
  import opened Streamable

  function CoinId(h: Hash, c: Coin): Digest
  {
    h(c.parent + c.puzzleHash + IntToBytes(c.amount))
  }

  // ----- printer -----

  function SpendBytes(s: CoinSpend): Result<bytes>
  {
    var amount :- EncUInt(s.coin.amount, 8);
    Ok(s.coin.parent + s.coin.puzzleHash + amount + s.puzzle + s.solution)
  }

  function SpendsBytes(ss: seq<CoinSpend>): Result<bytes>
  {
    if ss == [] then Ok([])
    else
      var first :- SpendBytes(ss[0]);
      var rest :- SpendsBytes(ss[1..]);
      Ok(first + rest)
  }

  function SerializeBundle(ss: seq<CoinSpend>, signature: bytes): Result<bytes>
  {
    var sig :- EncFixed(signature, 96);
    var n :- EncUInt(|ss|, 4);
    var body :- SpendsBytes(ss);
    Ok(n + body + sig)
  }

  // ----- reader -----

  /** The bytes of one program, kept as they are. */
  function ReadRaw(data: bytes, pos: nat): Decoded<bytes>
  {
    var (x, e) :- Parse(data, pos);
    Ok((data[pos..e], e))
  }

  function ReadSpend(h: Hash, data: bytes, pos: nat): Decoded<CoinSpend>
  {
    var (c, p1) :- DecCoin(data, pos);
    var (puzzle, p2) :- ReadRaw(data, p1);
    var (solution, p3) :- ReadRaw(data, p2);
    var program :- Deser(puzzle);
    if TreeHash(h, program) != c.puzzleHash then Err else Ok((CoinSpend(c, puzzle, solution), p3))
  }

  function ReadSpends(h: Hash, data: bytes, pos: nat, n: nat): Decoded<seq<CoinSpend>>
    decreases n
  {
    if n == 0 then Ok(([], pos))
    else
      var (s, p1) :- ReadSpend(h, data, pos);
      var (rest, p2) :- ReadSpends(h, data, p1, n - 1);
      Ok(([s] + rest, p2))
  }

  function ReadBundle(h: Hash, data: bytes): Result<(seq<CoinSpend>, bytes)>
  {
    if |data| < 4 + 96 then Err
    else
      var (n, p1) :- DecUInt(data, 0, 4);
      var (ss, p2) :- ReadSpends(h, data, p1, n);
      if |data| != p2 + 96 then Err else Ok((ss, data[p2..p2 + 96]))
  }

  ghost function Joined(out: seq<CoinSpend>, rest: Decoded<seq<CoinSpend>>): Decoded<seq<CoinSpend>>
  {
    match rest
    case Err => Err
    case Ok((more, e)) => Ok((out + more, e))
  }

  lemma JoinNext(h: Hash, out: seq<CoinSpend>, data: bytes, pos: nat, n: nat)
    requires n > 0
    ensures match ReadSpend(h, data, pos)
            case Err => ReadSpends(h, data, pos, n) == Err
            case Ok((s, p1)) =>
              Joined(out, ReadSpends(h, data, pos, n)) == Joined(out + [s], ReadSpends(h, data, p1, n - 1))
  {
    hide ReadSpend;
    if ReadSpend(h, data, pos).Ok? {
      var (s, p1) := ReadSpend(h, data, pos).value;
      var rest := ReadSpends(h, data, p1, n - 1);
      if rest.Ok? {
        assert out + ([s] + rest.value.0) == out + [s] + rest.value.0;
      }
    }
  }

  /** The loop over a moving position. */
  method ParseSolutionsBundle(h: Hash, data: bytes) returns (r: Result<(seq<CoinSpend>, bytes)>)
    ensures r == ReadBundle(h, data)
  {
    if |data| < 4 + 96 {
      return Err;
    }
    var count := DecUInt(data, 0, 4).value.0;
    var pos: nat := 4;
    var spends: seq<CoinSpend> := [];
    ghost var whole := ReadSpends(h, data, pos, count);
    assert whole.Ok? ==> [] + whole.value.0 == whole.value.0;
    hide DecCoin, ReadRaw, Deser, ReadSpends;
    for i := 0 to count
      invariant whole == Joined(spends, ReadSpends(h, data, pos, count - i))
    {
      JoinNext(h, spends, data, pos, count - i);
      var c := DecCoin(data, pos);
      if c.Err? {
        return Err;
      }
      var puzzle := ReadRaw(data, c.value.1);
      if puzzle.Err? {
        return Err;
      }
      var solution := ReadRaw(data, puzzle.value.1);
      if solution.Err? {
        return Err;
      }
      var program := Deser(puzzle.value.0);
      if program.Err? || TreeHash(h, program.value) != c.value.0.puzzleHash {
        return Err;
      }
      pos := solution.value.1;
      spends := spends + [CoinSpend(c.value.0, puzzle.value.0, solution.value.0)];
    }
    NoneLeft(h, spends, data, pos);
    if |data| != pos + 96 {
      return Err;
    }
    return Ok((spends, data[pos..pos + 96]));
  }

  lemma {:induction false} NoneLeft(h: Hash, out: seq<CoinSpend>, data: bytes, pos: nat)
    ensures Joined(out, ReadSpends(h, data, pos, 0)) == Ok((out, pos))
  {
    assert out + [] == out;
  }

  // ----- the reader accepts exactly what the printer writes -----

  /** A spend whose puzzle is tied to its coin record, and whose programs are whole. */
  predicate Tied(h: Hash, s: CoinSpend) {
    && |s.coin.parent| == |s.coin.puzzleHash| == 32
    && Deser(s.solution).Ok?
    && var x := Deser(s.puzzle); x.Ok? && TreeHash(h, x.value) == s.coin.puzzleHash
  }

  predicate AllTied(h: Hash, ss: seq<CoinSpend>) {
    forall i :: 0 <= i < |ss| ==> Tied(h, ss[i])
  }

  lemma RawInside(pre: bytes, b: bytes, post: bytes)
    requires Deser(b).Ok?
    ensures ReadRaw(pre + b + post, |pre|) == Ok((b, |pre| + |b|))
  {
    hide Parse;
    var (x, e) := Parse(b, 0).value;
    var data := pre + b + post;
    assert b[0..0 + |b|] == b;
    StretchInside(b, 0, |b|, pre, post);
    ParseLocal(b, 0, x, e, data, |pre|);
    assert data[|pre|..|pre| + |b|] == b;
  }

  lemma SpendInside(h: Hash, pre: bytes, s: CoinSpend, e: bytes, post: bytes)
    requires Tied(h, s) && SpendBytes(s) == Ok(e)
    ensures ReadSpend(h, pre + e + post, |pre|) == Ok((s, |pre| + |e|))
  {
    hide ReadRaw, DecCoin, Deser, ToBytes;
    var c := s.coin.parent + s.coin.puzzleHash + ToBytes(s.coin.amount, 8);
    var data := pre + e + post;
    assert EncCoin(s.coin) == Ok(c) && |c| == 72;
    assert e == c + s.puzzle + s.solution;
    DecEncCoin(pre, s.coin, s.puzzle + s.solution + post);
    assert data == pre + c + (s.puzzle + s.solution + post);
    RawInside(pre + c, s.puzzle, s.solution + post);
    assert data == (pre + c) + s.puzzle + (s.solution + post);
    RawInside(pre + c + s.puzzle, s.solution, post);
    assert data == (pre + c + s.puzzle) + s.solution + post;
  }

  lemma {:induction false} SpendsStep(ss: seq<CoinSpend>, e: bytes)
    requires ss != [] && SpendsBytes(ss) == Ok(e)
    ensures SpendBytes(ss[0]).Ok? && SpendsBytes(ss[1..]).Ok?
    ensures e == SpendBytes(ss[0]).value + SpendsBytes(ss[1..]).value
  {}

  lemma ReadSpendsStep(h: Hash, data: bytes, pos: nat, n: nat, s: CoinSpend, p1: nat, rest: seq<CoinSpend>, e: nat)
    requires n > 0 && ReadSpend(h, data, pos) == Ok((s, p1)) && ReadSpends(h, data, p1, n - 1) == Ok((rest, e))
    ensures ReadSpends(h, data, pos, n) == Ok(([s] + rest, e))
  {
    hide ReadSpend;
  }

  lemma {:induction false} SpendsInside(h: Hash, pre: bytes, ss: seq<CoinSpend>, e: bytes, post: bytes)
    requires AllTied(h, ss) && SpendsBytes(ss) == Ok(e)
    ensures ReadSpends(h, pre + e + post, |pre|, |ss|) == Ok((ss, |pre| + |e|))
    decreases |ss|
  {
    hide ReadSpend, SpendBytes, Tied;
    if ss == [] {
      assert pre + e + post == pre + post;
    } else {
      SpendsStep(ss, e);
      var a, b := SpendBytes(ss[0]).value, SpendsBytes(ss[1..]).value;
      var data := pre + e + post;
      assert data == pre + a + (b + post) && data == (pre + a) + b + post;
      SpendInside(h, pre, ss[0], a, b + post);
      SpendsInside(h, pre + a, ss[1..], b, post);
      hide ReadSpends;
      ReadSpendsStep(h, data, |pre|, |ss|, ss[0], |pre| + |a|, ss[1..], |pre| + |e|);
      assert ss == [ss[0]] + ss[1..];
    }
  }

  lemma RawPart(data: bytes, pos: nat, b: bytes, e: nat)
    requires ReadRaw(data, pos) == Ok((b, e))
    ensures pos <= e <= |data| && b == data[pos..e] && Deser(b).Ok?
  {
    hide Parse;
    var (x, _) := Parse(data, pos).value;
    assert b[0..0 + |b|] == b == data[pos..pos + |b|];
    ParseLocal(data, pos, x, e, b, 0);
  }

  lemma SpendPart(h: Hash, data: bytes, pos: nat, s: CoinSpend, e: nat)
    requires ReadSpend(h, data, pos) == Ok((s, e))
    ensures pos <= e <= |data| && Tied(h, s) && SpendBytes(s) == Ok(data[pos..e])
  {
    hide ReadRaw, DecCoin, Deser, ToBytes;
    var (c, p1) := DecCoin(data, pos).value;
    EncDecCoin(data, pos);
    var (puzzle, p2) := ReadRaw(data, p1).value;
    RawPart(data, p1, puzzle, p2);
    var (solution, p3) := ReadRaw(data, p2).value;
    RawPart(data, p2, solution, p3);
    assert data[pos..e] == data[pos..p1] + data[p1..p2] + data[p2..e];
  }

  lemma {:induction false} SpendsPart(h: Hash, data: bytes, pos: nat, n: nat, ss: seq<CoinSpend>, e: nat)
    requires pos <= |data| && ReadSpends(h, data, pos, n) == Ok((ss, e))
    ensures pos <= e <= |data| && |ss| == n && AllTied(h, ss) && SpendsBytes(ss) == Ok(data[pos..e])
    decreases n
  {
    hide ReadSpend, SpendBytes, Tied;
    if n > 0 {
      var (s, p1) := ReadSpend(h, data, pos).value;
      var (rest, _) := ReadSpends(h, data, p1, n - 1).value;
      SpendPart(h, data, pos, s, p1);
      SpendsPart(h, data, p1, n - 1, rest, e);
      assert ss[1..] == rest && ss[0] == s;
      assert data[pos..e] == data[pos..p1] + data[p1..e];
    } else {
      assert data[pos..pos] == [];
    }
  }

  /** The wallet's reader accepts a byte string exactly when it is the printed form of spends
      whose reveals hash to their coins' puzzle hashes, and returns those spends. */
  lemma BundleCodec(h: Hash, data: bytes, ss: seq<CoinSpend>, sig: bytes)
    ensures ReadBundle(h, data) == Ok((ss, sig)) <==> AllTied(h, ss) && SerializeBundle(ss, sig) == Ok(data)
  {
    hide ReadBundle, SerializeBundle, AllTied;
    if ReadBundle(h, data) == Ok((ss, sig)) {
      ReadIsPrinted(h, data, ss, sig);
    }
    if AllTied(h, ss) && SerializeBundle(ss, sig) == Ok(data) {
      PrintedIsRead(h, data, ss, sig);
    }
  }

  lemma ReadIsPrinted(h: Hash, data: bytes, ss: seq<CoinSpend>, sig: bytes)
    requires ReadBundle(h, data) == Ok((ss, sig))
    ensures AllTied(h, ss) && SerializeBundle(ss, sig) == Ok(data)
  {
    hide ReadSpends, SpendsBytes, AllTied;
    var (n, p1) := DecUInt(data, 0, 4).value;
    var (_, p2) := ReadSpends(h, data, p1, n).value;
    EncDecUInt(data, 0, 4);
    SpendsPart(h, data, 4, n, ss, p2);
    assert data == data[0..4] + data[4..p2] + data[p2..p2 + 96];
  }

  lemma PrintedIsRead(h: Hash, data: bytes, ss: seq<CoinSpend>, sig: bytes)
    requires AllTied(h, ss) && SerializeBundle(ss, sig) == Ok(data)
    ensures ReadBundle(h, data) == Ok((ss, sig))
  {
    hide ReadSpends, SpendsBytes, AllTied, DecUInt;
    var n, body := ToBytes(|ss|, 4), SpendsBytes(ss).value;
    DecEncUInt([], |ss|, 4, body + sig);
    assert data == [] + n + (body + sig);
    SpendsInside(h, n, ss, body, sig);
    var p2 := 4 + |body|;
    assert |data| == p2 + 96 && data[p2..p2 + 96] == sig;
  }

  // ----- the wallet and the relay agree -----

  lemma TiedEncodes(h: Hash, s: CoinSpend)
    requires Tied(h, s)
    ensures EncCoinSpend(s) == SpendBytes(s)
  {
    WholeProgram(s.puzzle);
    WholeProgram(s.solution);
    hide Deser, Walk, ToBytes;
    if EncUInt(s.coin.amount, 8).Ok? {
      var c := s.coin.parent + s.coin.puzzleHash + ToBytes(s.coin.amount, 8);
      assert c + s.puzzle + s.solution == s.coin.parent + s.coin.puzzleHash + ToBytes(s.coin.amount, 8) + s.puzzle + s.solution;
    }
  }

  lemma WholeProgram(b: bytes)
    requires Deser(b).Ok?
    ensures EncProgram(b) == Ok(b)
  {
    hide Parse, Walk;
    ReaderAndWalkerAgree(b, 0);
  }

  lemma {:induction false} TiedEncodeAll(h: Hash, ss: seq<CoinSpend>)
    requires AllTied(h, ss)
    ensures EncSpends(ss) == SpendsBytes(ss)
    decreases |ss|
  {
    hide Tied, EncCoinSpend, SpendBytes;
    if ss != [] {
      TiedEncodes(h, ss[0]);
      TiedEncodeAll(h, ss[1..]);
    }
  }

  /** Within the relay's caps, the wallet and the relay accept the same tied bundles and read the same spends. */
  lemma RelayAgreement(h: Hash, data: bytes, sb: SpendBundle)
    ensures ReadBundle(h, data) == Ok((sb.spends, sb.signature)) && WithinCaps(sb)
       <==> ParseBundle(data) == Ok(sb) && AllTied(h, sb.spends)
  {
    hide ReadBundle, ParseBundle, WithinCaps, EncSpends, SpendsBytes, AllTied;
    BundleCodec(h, data, sb.spends, sb.signature);
    if AllTied(h, sb.spends) {
      TiedEncodeAll(h, sb.spends);
      assert EncSpendBundle(sb) == SerializeBundle(sb.spends, sb.signature);
      if ParseBundle(data) == Ok(sb) {
        ReencodeAccepted(data);
      }
      if EncSpendBundle(sb) == Ok(data) {
        BundleRoundTrip(sb);
      }
    }
  }
}
