/** The relay's codec for coins, spends, bundles and message envelopes.
    Each decoder is specified by a function from the bytes and a position to the value and
    the position after it; the `Reader` methods move a position as the source's reader does. */
module Streamable {
  import opened Wrappers
  import opened Radix
  import opened Bytes
  import opened ClvmWalk

  type Decoded<+T> = Result<(T, nat)>

  // ----- encoders -----

  /** An unsigned integer in `n` big-endian bytes; out-of-range values are refused. */
  function EncUInt(v: nat, n: nat): Result<bytes>
  {
    if v < Pow(256, n) then Ok(ToBytes(v, n)) else Err
  }

  function EncFixed(b: bytes, n: nat): Result<bytes>
  {
    if |b| == n then Ok(b) else Err
  }

  /** A program travels bare: its own framing says where it ends. */
  function EncProgram(b: bytes): Result<bytes>
  {
    if Walk(b, 0, 1) == Ok(|b|) then Ok(b) else Err
  }

  datatype Coin = Coin(parent: bytes, puzzleHash: bytes, amount: nat)
  datatype CoinSpend = CoinSpend(coin: Coin, puzzle: bytes, solution: bytes)
  datatype SpendBundle = SpendBundle(spends: seq<CoinSpend>, signature: bytes)

  function EncCoin(c: Coin): Result<bytes>
  {
    var p :- EncFixed(c.parent, 32);
    var h :- EncFixed(c.puzzleHash, 32);
    var a :- EncUInt(c.amount, 8);
    Ok(p + h + a)
  }

  function EncCoinSpend(s: CoinSpend): Result<bytes>
  {
    var c :- EncCoin(s.coin);
    var r :- EncProgram(s.puzzle);
    var t :- EncProgram(s.solution);
    Ok(c + r + t)
  }

  function EncSpends(ss: seq<CoinSpend>): Result<bytes>
  {
    if ss == [] then Ok([])
    else
      var first :- EncCoinSpend(ss[0]);
      var rest :- EncSpends(ss[1..]);
      Ok(first + rest)
  }

  function EncSpendBundle(sb: SpendBundle): Result<bytes>
  {
    var n :- EncUInt(|sb.spends|, 4);
    var ss :- EncSpends(sb.spends);
    var sig :- EncFixed(sb.signature, 96);
    Ok(n + ss + sig)
  }

  // ----- decoders, as functions -----

  function Take(data: bytes, pos: nat, n: nat): (r: Decoded<bytes>)
    ensures r.Ok? ==> |r.value.0| == n && r.value.1 == pos + n <= |data|
  {
    if pos + n <= |data| then Ok((data[pos..pos + n], pos + n)) else Err
  }

  function DecUInt(data: bytes, pos: nat, n: nat): Decoded<nat>
  {
    var (b, e) :- Take(data, pos, n);
    Ok((BigEndian(b), e))
  }

  function DecProgram(data: bytes, pos: nat, maxLen: nat): Decoded<bytes>
  {
    var e :- Walk(data, pos, 1);
    if e - pos > maxLen then Err else Take(data, pos, e - pos)
  }

  function DecCoin(data: bytes, pos: nat): Decoded<Coin>
  {
    var (p, p1) :- Take(data, pos, 32);
    var (h, p2) :- Take(data, p1, 32);
    var (a, p3) :- DecUInt(data, p2, 8);
    Ok((Coin(p, h, a), p3))
  }

  function DecCoinSpend(data: bytes, pos: nat, maxLen: nat): Decoded<CoinSpend>
  {
    var (c, p1) :- DecCoin(data, pos);
    var (r, p2) :- DecProgram(data, p1, maxLen);
    var (s, p3) :- DecProgram(data, p2, maxLen);
    Ok((CoinSpend(c, r, s), p3))
  }

  function DecSpends(data: bytes, pos: nat, n: nat, maxLen: nat): Decoded<seq<CoinSpend>>
    decreases n
  {
    if n == 0 then Ok(([], pos))
    else
      var (s, p1) :- DecCoinSpend(data, pos, maxLen);
      var (rest, p2) :- DecSpends(data, p1, n - 1, maxLen);
      Ok(([s] + rest, p2))
  }

  const MAX_COIN_SPENDS := 10_000
  const MAX_PROGRAM_BYTES := 2 * 1024 * 1024

  /** The strict gate in front of broadcast. */
  function ParseBundle(data: bytes): Result<SpendBundle>
  {
    if data == [] then Err
    else
      var (n, p1) :- DecUInt(data, 0, 4);
      if n == 0 || n > MAX_COIN_SPENDS then Err
      else
        var (spends, p2) :- DecSpends(data, p1, n, MAX_PROGRAM_BYTES);
        var (sig, p3) :- Take(data, p2, 96);
        if p3 != |data| then Err else Ok(SpendBundle(spends, sig))
  }

  // ----- the reader -----

  class Reader {
    const data: bytes
    var pos: nat

    constructor (data: bytes)
      ensures this.data == data && pos == 0
    {
      this.data := data;
      pos := 0;
    }

    /** A method that started at `was` did what the decoder function says. */
    ghost predicate Did<T>(spec: Decoded<T>, r: Result<T>)
      reads this
    {
      match spec
      case Ok((v, e)) => r == Ok(v) && pos == e
      case Err => r == Err
    }

    method Read(n: int) returns (r: Result<bytes>)
      modifies this
      ensures n < 0 ==> r == Err
      ensures n >= 0 ==> Did(Take(data, old(pos), n), r)
      ensures r.Err? ==> pos == old(pos)
    {
      if n < 0 {
        return Err;
      }
      var end: nat := pos + n;
      if end > |data| {
        return Err;
      }
      var out := data[pos..end];
      pos := end;
      return Ok(out);
    }

    method ReadUInt(n: nat) returns (r: Result<nat>)
      modifies this
      ensures Did(DecUInt(data, old(pos), n), r)
    {
      var b := Read(n);
      if b.Err? {
        return Err;
      }
      return Ok(BigEndian(b.value));
    }

    method ReadProgram(maxLen: nat) returns (r: Result<bytes>)
      modifies this
      ensures Did(DecProgram(data, old(pos), maxLen), r)
    {
      var length := ClvmProgramLength(data, pos);
      if length.Err? || length.value > maxLen {
        return Err;
      }
      r := Read(length.value);
    }

    method ReadCoin() returns (r: Result<Coin>)
      modifies this
      ensures Did(DecCoin(data, old(pos)), r)
    {
      var p := Read(32);
      if p.Err? { return Err; }
      var h := Read(32);
      if h.Err? { return Err; }
      var a := ReadUInt(8);
      if a.Err? { return Err; }
      return Ok(Coin(p.value, h.value, a.value));
    }

    method ReadCoinSpend(maxLen: nat) returns (r: Result<CoinSpend>)
      modifies this
      ensures Did(DecCoinSpend(data, old(pos), maxLen), r)
    {
      var c := ReadCoin();
      if c.Err? { return Err; }
      var p := ReadProgram(maxLen);
      if p.Err? { return Err; }
      var s := ReadProgram(maxLen);
      if s.Err? { return Err; }
      return Ok(CoinSpend(c.value, p.value, s.value));
    }

    method ReadSpends(n: nat, maxLen: nat) returns (r: Result<seq<CoinSpend>>)
      modifies this
      ensures Did(DecSpends(data, old(pos), n, maxLen), r)
    {
      hide DecCoinSpend;
      var out: seq<CoinSpend> := [];
      ghost var whole := DecSpends(data, pos, n, maxLen);
      assert whole.Ok? ==> [] + whole.value.0 == whole.value.0;
      for i := 0 to n
        invariant whole == Joined(out, DecSpends(data, pos, n - i, maxLen))
      {
        JoinNext(out, data, pos, n - i, maxLen);
        var s := ReadCoinSpend(maxLen);
        if s.Err? {
          return Err;
        }
        out := out + [s.value];
      }
      assert out + [] == out;
      return Ok(out);
    }
  }

  ghost function Joined(out: seq<CoinSpend>, rest: Decoded<seq<CoinSpend>>): Decoded<seq<CoinSpend>>
  {
    match rest
    case Err => Err
    case Ok((more, e)) => Ok((out + more, e))
  }

  /** One more spend read: it moves from the part still to read to the part already read. */
  lemma JoinNext(out: seq<CoinSpend>, data: bytes, pos: nat, n: nat, maxLen: nat)
    requires n > 0
    ensures match DecCoinSpend(data, pos, maxLen)
            case Err => DecSpends(data, pos, n, maxLen) == Err
            case Ok((s, p1)) =>
              Joined(out, DecSpends(data, pos, n, maxLen)) == Joined(out + [s], DecSpends(data, p1, n - 1, maxLen))
  {
    if DecCoinSpend(data, pos, maxLen).Ok? {
      var (s, p1) := DecCoinSpend(data, pos, maxLen).value;
      var rest := DecSpends(data, p1, n - 1, maxLen);
      if rest.Ok? {
        var (more, e) := rest.value;
        DecSpendsStep(data, pos, n, maxLen, s, p1, more, e);
        assert out + ([s] + more) == out + [s] + more;
      }
    }
  }

  lemma DecSpendsStep(data: bytes, pos: nat, n: nat, maxLen: nat, s: CoinSpend, p1: nat, rest: seq<CoinSpend>, e: nat)
    requires n > 0 && DecCoinSpend(data, pos, maxLen) == Ok((s, p1))
    requires DecSpends(data, p1, n - 1, maxLen) == Ok((rest, e))
    ensures DecSpends(data, pos, n, maxLen) == Ok(([s] + rest, e))
  {}

  lemma {:induction false} EncSpendsStep(s: CoinSpend, rest: seq<CoinSpend>, a: bytes, b: bytes)
    requires EncCoinSpend(s) == Ok(a) && EncSpends(rest) == Ok(b)
    ensures EncSpends([s] + rest) == Ok(a + b)
  {
    assert ([s] + rest)[1..] == rest;
  }

  method ParseSpendBundle(data: bytes) returns (r: Result<SpendBundle>)
    ensures r == ParseBundle(data)
  {
    if |data| == 0 {
      return Err;
    }
    var reader := new Reader(data);
    var n := reader.ReadUInt(4);
    if n.Err? || n.value == 0 || n.value > MAX_COIN_SPENDS {
      return Err;
    }
    var spends := reader.ReadSpends(n.value, MAX_PROGRAM_BYTES);
    if spends.Err? {
      return Err;
    }
    var sig := reader.Read(96);
    if sig.Err? || reader.pos != |data| {
      return Err;
    }
    return Ok(SpendBundle(spends.value, sig.value));
  }

  // ----- decoding what was encoded -----

  lemma TakeInside(pre: bytes, b: bytes, post: bytes)
    ensures Take(pre + b + post, |pre|, |b|) == Ok((b, |pre| + |b|))
  {
    assert (pre + b + post)[|pre|..|pre| + |b|] == b;
  }

  lemma {:induction false} DecEncUInt(pre: bytes, v: nat, n: nat, post: bytes)
    requires v < Pow(256, n)
    ensures DecUInt(pre + ToBytes(v, n) + post, |pre|, n) == Ok((v, |pre| + n))
  {
    TakeInside(pre, ToBytes(v, n), post);
    BigEndianToBytes(v, n);
  }

  lemma DecEncProgram(pre: bytes, b: bytes, post: bytes, maxLen: nat)
    requires EncProgram(b).Ok? && |b| <= maxLen
    ensures DecProgram(pre + b + post, |pre|, maxLen) == Ok((b, |pre| + |b|))
  {
    assert b[0..0 + |b|] == b;
    StretchInside(b, 0, |b|, pre, post);
    WalkLocal(b, 0, |b|, pre + b + post, |pre|, 1);
    TakeInside(pre, b, post);
  }

  lemma DecEncCoin(pre: bytes, c: Coin, post: bytes)
    requires EncCoin(c).Ok?
    ensures DecCoin(pre + EncCoin(c).value + post, |pre|) == Ok((c, |pre| + 72))
  {
    var a := ToBytes(c.amount, 8);
    var data := pre + EncCoin(c).value + post;
    var pre2 := pre + c.parent;
    var pre3 := pre2 + c.puzzleHash;
    assert data == pre + c.parent + (c.puzzleHash + a + post);
    assert data == pre2 + c.puzzleHash + (a + post);
    assert data == pre3 + a + post;
    TakeInside(pre, c.parent, c.puzzleHash + a + post);
    TakeInside(pre2, c.puzzleHash, a + post);
    DecEncUInt(pre3, c.amount, 8, post);
  }

  lemma EncodedCoin(c: Coin)
    requires EncCoin(c).Ok?
    ensures |EncCoin(c).value| == 72
  {}

  lemma EncodedProgram(b: bytes)
    ensures EncProgram(b).Ok? ==> EncProgram(b) == Ok(b)
  {
    hide Walk;
  }

  predicate SpendFits(s: CoinSpend, maxLen: nat) {
    |s.puzzle| <= maxLen && |s.solution| <= maxLen
  }

  lemma DecEncCoinSpend(pre: bytes, s: CoinSpend, post: bytes, maxLen: nat)
    requires EncCoinSpend(s).Ok? && SpendFits(s, maxLen)
    ensures var enc := EncCoinSpend(s).value;
            DecCoinSpend(pre + enc + post, |pre|, maxLen) == Ok((s, |pre| + |enc|))
  {
    hide EncCoin, EncProgram, DecCoin, DecProgram;
    EncodedCoin(s.coin);
    EncodedProgram(s.puzzle);
    EncodedProgram(s.solution);
    var c := EncCoin(s.coin).value;
    var data := pre + EncCoinSpend(s).value + post;
    var pre2 := pre + c;
    var pre3 := pre2 + s.puzzle;
    assert data == pre + c + (s.puzzle + s.solution + post);
    assert data == pre2 + s.puzzle + (s.solution + post);
    assert data == pre3 + s.solution + post;
    DecEncCoin(pre, s.coin, s.puzzle + s.solution + post);
    DecEncProgram(pre2, s.puzzle, s.solution + post, maxLen);
    DecEncProgram(pre3, s.solution, post, maxLen);
  }

  lemma {:induction false} DecEncSpends(pre: bytes, ss: seq<CoinSpend>, enc: bytes, post: bytes, maxLen: nat)
    requires EncSpends(ss) == Ok(enc) && forall i :: 0 <= i < |ss| ==> SpendFits(ss[i], maxLen)
    ensures DecSpends(pre + enc + post, |pre|, |ss|, maxLen) == Ok((ss, |pre| + |enc|))
    decreases |ss|
  {
    hide DecCoinSpend, EncCoinSpend, SpendFits;
    if ss != [] {
      var first, rest := EncCoinSpend(ss[0]).value, EncSpends(ss[1..]).value;
      var data := pre + enc + post;
      assert enc == first + rest;
      assert data == pre + first + (rest + post);
      assert data == (pre + first) + rest + post;
      DecEncCoinSpend(pre, ss[0], rest + post, maxLen);
      DecEncSpends(pre + first, ss[1..], rest, post, maxLen);
      DecSpendsStep(data, |pre|, |ss|, maxLen, ss[0], |pre + first|, ss[1..], |pre| + |enc|);
      assert ss == [ss[0]] + ss[1..];
    }
  }

  /** The caps the gate adds to what the encoder accepts. */
  predicate WithinCaps(sb: SpendBundle) {
    && 1 <= |sb.spends| <= MAX_COIN_SPENDS
    && forall i :: 0 <= i < |sb.spends| ==> SpendFits(sb.spends[i], MAX_PROGRAM_BYTES)
  }

  // ----- encoding what was decoded -----

  lemma EncDecUInt(data: bytes, pos: nat, n: nat)
    requires DecUInt(data, pos, n).Ok?
    ensures EncUInt(DecUInt(data, pos, n).value.0, n) == Ok(data[pos..pos + n])
  {
    BigEndianBound(data[pos..pos + n]);
    ToBytesBigEndian(data[pos..pos + n]);
  }

  lemma EncDecProgram(data: bytes, pos: nat, maxLen: nat)
    requires DecProgram(data, pos, maxLen).Ok?
    ensures var (b, e) := DecProgram(data, pos, maxLen).value;
            pos <= e <= |data| && b == data[pos..e] && EncProgram(b) == Ok(b) && |b| <= maxLen
  {
    var (b, e) := DecProgram(data, pos, maxLen).value;
    assert b[0..0 + |b|] == b == data[pos..pos + |b|];
    WalkLocal(data, pos, e, b, 0, 1);
  }

  lemma JoinParts(data: bytes, i: nat, j: nat, k: nat)
    requires i <= j <= k <= |data|
    ensures data[i..j] + data[j..k] == data[i..k]
  {}

  lemma EncDecCoin(data: bytes, pos: nat)
    requires DecCoin(data, pos).Ok?
    ensures var (c, e) := DecCoin(data, pos).value;
            pos + 72 == e <= |data| && EncCoin(c) == Ok(data[pos..e])
  {
    EncDecUInt(data, pos + 64, 8);
    JoinParts(data, pos, pos + 32, pos + 64);
    JoinParts(data, pos, pos + 64, pos + 72);
  }

  lemma EncDecCoinSpend(data: bytes, pos: nat, maxLen: nat)
    requires DecCoinSpend(data, pos, maxLen).Ok?
    ensures var (s, e) := DecCoinSpend(data, pos, maxLen).value;
            pos <= e <= |data| && EncCoinSpend(s) == Ok(data[pos..e]) && SpendFits(s, maxLen)
  {
    var (c, p1) := DecCoin(data, pos).value;
    var (r, p2) := DecProgram(data, p1, maxLen).value;
    var (s, p3) := DecProgram(data, p2, maxLen).value;
    EncDecCoin(data, pos);
    EncDecProgram(data, p1, maxLen);
    EncDecProgram(data, p2, maxLen);
    JoinParts(data, pos, p1, p2);
    JoinParts(data, pos, p2, p3);
  }

  lemma {:induction false} EncDecSpends(data: bytes, pos: nat, n: nat, maxLen: nat, ss: seq<CoinSpend>, e: nat)
    requires pos <= |data| && DecSpends(data, pos, n, maxLen) == Ok((ss, e))
    ensures pos <= e <= |data| && |ss| == n && EncSpends(ss) == Ok(data[pos..e])
    ensures forall i :: 0 <= i < n ==> SpendFits(ss[i], maxLen)
    decreases n
  {
    hide DecCoinSpend, EncCoinSpend, SpendFits;
    if n > 0 {
      var (s, p1) := DecCoinSpend(data, pos, maxLen).value;
      var (rest, _) := DecSpends(data, p1, n - 1, maxLen).value;
      EncDecCoinSpend(data, pos, maxLen);
      EncDecSpends(data, p1, n - 1, maxLen, rest, e);
      assert ss == [s] + rest;
      JoinParts(data, pos, p1, e);
      EncSpendsStep(s, rest, data[pos..p1], data[p1..e]);
    } else {
      assert data[pos..pos] == [];
    }
  }

  /** Whatever the gate accepts is the encoding of what it returns: no two byte strings
      stand for one bundle, and what it returns keeps the caps. */
  lemma ReencodeAccepted(data: bytes)
    requires ParseBundle(data).Ok?
    ensures EncSpendBundle(ParseBundle(data).value) == Ok(data)
    ensures WithinCaps(ParseBundle(data).value)
  {
    hide EncSpends, DecSpends, SpendFits;
    var (n, p1) := DecUInt(data, 0, 4).value;
    EncDecUInt(data, 0, 4);
    var (spends, p2) := DecSpends(data, p1, n, MAX_PROGRAM_BYTES).value;
    EncDecSpends(data, p1, n, MAX_PROGRAM_BYTES, spends, p2);
    JoinParts(data, 0, 4, p2);
    JoinParts(data, 0, p2, |data|);
    assert data[0..|data|] == data;
  }

  /** The gate returns an encoded bundle unchanged exactly when the bundle keeps the caps. */
  lemma BundleRoundTrip(sb: SpendBundle)
    requires EncSpendBundle(sb).Ok?
    ensures ParseBundle(EncSpendBundle(sb).value) == Ok(sb) <==> WithinCaps(sb)
    ensures WithinCaps(sb) <==>
            && 1 <= |sb.spends| <= 10_000
            && forall i :: 0 <= i < |sb.spends| ==> |sb.spends[i].puzzle| <= 2_097_152 && |sb.spends[i].solution| <= 2_097_152
  {
    assert forall i :: 0 <= i < |sb.spends| ==>
             (SpendFits(sb.spends[i], 2_097_152) <==> |sb.spends[i].puzzle| <= 2_097_152 && |sb.spends[i].solution| <= 2_097_152);
    hide EncSpends, DecSpends, SpendFits;
    var data := EncSpendBundle(sb).value;
    if WithinCaps(sb) {
      var n, ss := ToBytes(|sb.spends|, 4), EncSpends(sb.spends).value;
      assert data == [] + n + (ss + sb.signature);
      assert data == n + ss + sb.signature;
      assert data == (n + ss) + sb.signature + [];
      DecEncUInt([], |sb.spends|, 4, ss + sb.signature);
      DecEncSpends(n, sb.spends, ss, sb.signature, MAX_PROGRAM_BYTES);
      TakeInside(n + ss, sb.signature, []);
    }
    if ParseBundle(data) == Ok(sb) {
      ReencodeAccepted(data);
    }
  }

  /** A spend stands at `p` up to `e`: parent, puzzle hash, eight bytes of amount, puzzle, solution. */
  ghost predicate SpendStands(data: bytes, p: nat, e: nat, s: CoinSpend) {
    && p + 72 <= e <= |data|
    && s.coin.parent == data[p..p + 32] && s.coin.puzzleHash == data[p + 32..p + 64]
    && s.coin.amount == BigEndian(data[p + 64..p + 72]) && data[p + 72..e] == s.puzzle + s.solution
    && EncProgram(s.puzzle).Ok? && EncProgram(s.solution).Ok?
  }

  lemma SpendField(data: bytes, p: nat, maxLen: nat)
    requires DecCoinSpend(data, p, maxLen).Ok?
    ensures var (s, e) := DecCoinSpend(data, p, maxLen).value; SpendStands(data, p, e, s)
  {
    hide BigEndian, Walk;
    var (c, p1) := DecCoin(data, p).value;
    var (r, p2) := DecProgram(data, p1, maxLen).value;
    EncDecProgram(data, p1, maxLen);
    EncDecProgram(data, p2, maxLen);
    JoinParts(data, p1, p2, DecProgram(data, p2, maxLen).value.1);
  }

  lemma {:induction false} SpendFields(data: bytes, p: nat, n: nat, maxLen: nat) returns (at: seq<nat>)
    requires p <= |data| && DecSpends(data, p, n, maxLen).Ok?
    ensures var (ss, e) := DecSpends(data, p, n, maxLen).value;
            && |at| == n + 1 && |ss| == n && at[0] == p && at[n] == e
            && forall k :: 0 <= k < n ==> SpendStands(data, at[k], at[k + 1], ss[k])
    decreases n
  {
    hide DecCoinSpend, SpendStands;
    if n == 0 {
      at := [p];
    } else {
      var (s, p1) := DecCoinSpend(data, p, maxLen).value;
      SpendField(data, p, maxLen);
      SpendEnds(data, p, p1, s);
      var rest := SpendFields(data, p1, n - 1, maxLen);
      at := [p] + rest;
    }
  }

  lemma SpendEnds(data: bytes, p: nat, e: nat, s: CoinSpend)
    requires SpendStands(data, p, e, s)
    ensures e <= |data|
  {}

  /** Where everything stands in an accepted bundle: four bytes of count, the spends one after another, and
      96 bytes of signature. */
  lemma {:induction false} BundleFields(data: bytes, sb: SpendBundle) returns (at: seq<nat>)
    requires ParseBundle(data) == Ok(sb)
    ensures |data| >= 100 && BigEndian(data[..4]) == |sb.spends| && sb.signature == data[|data| - 96..]
    ensures |at| == |sb.spends| + 1 && at[0] == 4 && at[|sb.spends|] == |data| - 96
    ensures forall k :: 0 <= k < |sb.spends| ==> SpendStands(data, at[k], at[k + 1], sb.spends[k])
  {
    hide DecSpends, EncSpends, BigEndian, SpendStands, SpendFits;
    var (n, p1) := DecUInt(data, 0, 4).value;
    var (spends, p2) := DecSpends(data, p1, n, MAX_PROGRAM_BYTES).value;
    EncDecSpends(data, 4, n, MAX_PROGRAM_BYTES, spends, p2);
    assert data[p2..p2 + 96] == data[|data| - 96..];
    assert data[0..4] == data[..4];
    at := SpendFields(data, 4, n, MAX_PROGRAM_BYTES);
  }

  // ----- message envelope -----

  datatype Message = Message(msgType: nat, id: Option<nat>, payload: bytes)

  function EncMessage(m: Message): Result<bytes>
  {
    var t :- EncUInt(m.msgType, 1);
    var id :- match m.id { case None => Ok([0]) case Some(v) => var b :- EncUInt(v, 2); Ok([1] + b) };
    var n :- EncUInt(|m.payload|, 4);
    Ok(t + id + (n + m.payload))
  }

  function DecMessageId(data: bytes, pos: nat): Decoded<Option<nat>>
  {
    var (flag, p1) :- Take(data, pos, 1);
    if flag == [0] then Ok((None, p1))
    else if flag == [1] then
      var (v, p2) :- DecUInt(data, p1, 2);
      Ok((Some(v), p2))
    else Err
  }

  function DecMessage(data: bytes): Result<Message>
  {
    var (t, p1) :- DecUInt(data, 0, 1);
    var (id, p2) :- DecMessageId(data, p1);
    var (n, p3) :- DecUInt(data, p2, 4);
    var (payload, p4) :- Take(data, p3, n);
    if p4 != |data| then Err else Ok(Message(t, id, payload))
  }

  /** A frame is accepted exactly when it is the encoding of the message it is read as. */
  lemma MessageCodec(data: bytes, m: Message)
    ensures DecMessage(data) == Ok(m) <==> EncMessage(m) == Ok(data)
  {
    if DecMessage(data) == Ok(m) {
      EncDecMessage(data);
    }
    if EncMessage(m) == Ok(data) {
      DecEncMessage(m);
    }
  }

  /** Where everything stands in a frame: type, a flag byte, two bytes of id if it is 1, four bytes of length,
      the payload. */
  lemma FrameFields(data: bytes, m: Message)
    requires DecMessage(data) == Ok(m)
    ensures |data| >= 6 && data[0] == m.msgType && data[1] == if m.id.Some? then 1 else 0
    ensures m.id.Some? ==> |data| >= 8 && BigEndian(data[2..4]) == m.id.value
    ensures var p := if m.id.Some? then 4 else 2;
            BigEndian(data[p..p + 4]) == |m.payload| && data[p + 4..] == m.payload
  {
    assert data[0..1][..0] == [] && BigEndian([]) == 0;
    assert BigEndian(data[0..1]) == BigEndian(data[0..1][..0]) * 256 + data[0];
    assert data[1..2][0] == data[1];
    hide BigEndian;
  }

  lemma EncDecMessage(data: bytes)
    requires DecMessage(data).Ok?
    ensures EncMessage(DecMessage(data).value) == Ok(data)
  {
    var (id, p2) := DecMessageId(data, 1).value;
    EncDecUInt(data, 0, 1);
    EncDecUInt(data, p2, 4);
    if id.Some? {
      EncDecUInt(data, 2, 2);
      JoinParts(data, 1, 2, 4);
    }
    JoinParts(data, 0, 1, p2);
    JoinParts(data, p2, p2 + 4, |data|);
    JoinParts(data, 0, p2, |data|);
    assert data[0..|data|] == data;
  }

  lemma DecEncMessage(m: Message)
    requires EncMessage(m).Ok?
    ensures DecMessage(EncMessage(m).value) == Ok(m)
  {
    var data := EncMessage(m).value;
    var t, n := ToBytes(m.msgType, 1), ToBytes(|m.payload|, 4);
    var id := if m.id.None? then [0] else [1] + ToBytes(m.id.value, 2);
    var flag := id[..1];
    assert data == [] + t + (id + (n + m.payload));
    assert data == t + flag + (id[1..] + (n + m.payload));
    assert data == (t + id) + n + m.payload;
    assert data == (t + id + n) + m.payload + [];
    DecEncUInt([], m.msgType, 1, id + (n + m.payload));
    TakeInside(t, flag, id[1..] + (n + m.payload));
    if m.id.Some? {
      assert data == (t + flag) + ToBytes(m.id.value, 2) + (n + m.payload);
      DecEncUInt(t + flag, m.id.value, 2, n + m.payload);
    }
    DecEncUInt(t + id, |m.payload|, 4, m.payload);
    TakeInside(t + id + n, m.payload, []);
  }
}
