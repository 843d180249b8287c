/** RLP for transactions (Ethereum Yellow Paper, Appendix B; EIP-155): the printer of the signer,
    a reader by the standard's rules, and the nine-field unsigned transaction. */
module Rlp {
  import opened Wrappers
  import opened Radix
  import opened Bytes

  // ----- printer -----

  /** `int.to_bytes` in the least number of bytes; zero is the empty string. */
  function IntBytes(n: nat): bytes
  {
    if n == 0 then [] else ToBytes(n, (BitLength(n) + 7) / 8)
  }

  /** A length prefix; a first byte above 255 raises. */
  function Prefix(l: nat, offset: nat): Result<bytes>
  {
    if l < 56 then
      if offset + l < 256 then Ok([offset + l]) else Err
    else
      var bl := IntBytes(l);
      if offset + 55 + |bl| < 256 then Ok([offset + 55 + |bl|] + bl) else Err
  }

  function PrintString(b: bytes): Result<bytes>
  {
    if |b| == 1 && b[0] < 0x80 then Ok(b)
    else
      var p :- Prefix(|b|, 0x80);
      Ok(p + b)
  }

  function PrintItems(items: seq<bytes>): Result<bytes>
  {
    if items == [] then Ok([])
    else
      var first :- PrintString(items[0]);
      var rest :- PrintItems(items[1..]);
      Ok(first + rest)
  }

  function PrintList(items: seq<bytes>): Result<bytes>
  {
    var payload :- PrintItems(items);
    var p :- Prefix(|payload|, 0xC0);
    Ok(p + payload)
  }

  // ----- reader -----

  /** Payload and rest of an item whose first byte is offset, plus a length or a length of the length. */
  function ReadPayload(data: bytes, offset: nat): Result<(bytes, bytes)>
    requires data != [] && offset <= data[0]
  {
    var k := data[0] - offset;
    if k < 56 then
      if 1 + k <= |data| then Ok((data[1..1 + k], data[1 + k..])) else Err
    else
      var w := k - 55;
      if 1 + w > |data| then Err
      else
        var n := BigEndian(data[1..1 + w]);
        if 1 + w + n <= |data| then Ok((data[1 + w..1 + w + n], data[1 + w + n..])) else Err
  }

  function ReadString(data: bytes): Result<(bytes, bytes)>
  {
    if data == [] || data[0] >= 0xC0 then Err
    else if data[0] < 0x80 then Ok((data[..1], data[1..]))
    else ReadPayload(data, 0x80)
  }

  function ReadStrings(data: bytes): Result<seq<bytes>>
    decreases |data|
  {
    if data == [] then Ok([])
    else
      var (first, rest) :- ReadString(data);
      if |rest| >= |data| then Err
      else
        var more :- ReadStrings(rest);
        Ok([first] + more)
  }

  function ReadList(data: bytes): Result<(seq<bytes>, bytes)>
  {
    if data == [] || data[0] < 0xC0 then Err
    else
      var (payload, rest) :- ReadPayload(data, 0xC0);
      var items :- ReadStrings(payload);
      Ok((items, rest))
  }

  // ----- what is printed is read back -----

  /** Lengths that the prefix can carry: eight bytes of length at most. */
  predicate Representable(n: nat) { n < Pow(256, 8) }

  lemma IntBytesMinimal(n: nat)
    ensures IntBytes(n) == MinimalBytes(n) && BigEndian(IntBytes(n)) == n
  {
    BitLengthBytes(n);
    BigEndianMinimal(n);
  }

  lemma LengthBytes(l: nat)
    requires 56 <= l && Representable(l)
    ensures 1 <= |IntBytes(l)| <= 8 && BigEndian(IntBytes(l)) == l
  {
    IntBytesMinimal(l);
    ByteLengthLeast(l, 8);
  }

  /** A prefix, its payload and anything behind them read as the payload and what is behind. */
  lemma PrefixRead(b: bytes, offset: nat, p: bytes, s: bytes)
    requires Representable(|b|) && Prefix(|b|, offset) == Ok(p)
    ensures p != [] && offset <= (p + b + s)[0] <= offset + 63
    ensures ReadPayload(p + b + s, offset) == Ok((b, s))
  {
    var data := p + b + s;
    var l := |b|;
    if l < 56 {
      assert data[1..1 + l] == b && data[1 + l..] == s;
    } else {
      hide IntBytes, BigEndian, Representable;
      LengthBytes(l);
      var bl := IntBytes(l);
      var w := |bl|;
      assert p == [offset + 55 + w] + bl;
      assert data[1..1 + w] == bl;
      assert data[1 + w..1 + w + l] == b && data[1 + w + l..] == s;
    }
  }

  lemma StringRead(b: bytes, e: bytes, s: bytes)
    requires Representable(|b|) && PrintString(b) == Ok(e)
    ensures e != [] && ReadString(e + s) == Ok((b, s))
  {
    hide ReadPayload, Prefix;
    if |b| == 1 && b[0] < 0x80 {
      assert (e + s)[..1] == b && (e + s)[1..] == s;
    } else {
      PrefixRead(b, 0x80, Prefix(|b|, 0x80).value, s);
    }
  }

  lemma {:induction false} StringsRead(items: seq<bytes>, e: bytes)
    requires (forall i :: 0 <= i < |items| ==> Representable(|items[i]|)) && PrintItems(items) == Ok(e)
    ensures ReadStrings(e) == Ok(items)
    decreases |items|
  {
    hide PrintString, ReadString, Representable;
    if items != [] {
      var first, rest := PrintString(items[0]).value, PrintItems(items[1..]).value;
      StringRead(items[0], first, rest);
      StringsRead(items[1..], rest);
      assert items == [items[0]] + items[1..];
    }
  }

  /** Reading a printed list gives its items and the bytes after it, so no printed list is a proper
      prefix of another and equal bytes have equal items. */
  lemma {:induction false} ListRead(items: seq<bytes>, e: bytes, s: bytes)
    requires forall i :: 0 <= i < |items| ==> Representable(|items[i]|)
    requires PrintList(items) == Ok(e) && PrintItems(items).Ok? && Representable(|PrintItems(items).value|)
    ensures ReadList(e + s) == Ok((items, s))
  {
    hide PrintItems, ReadPayload, Prefix, ReadStrings, Representable;
    var payload := PrintItems(items).value;
    PrefixRead(payload, 0xC0, Prefix(|payload|, 0xC0).value, s);
    StringsRead(items, payload);
  }

  // ----- the printed form is the shortest -----

  /** Bytes of a prefix. */
  lemma PrefixLength(l: nat, offset: nat)
    requires Representable(l) && offset <= 0xC0
    ensures Prefix(l, offset).Ok? && |Prefix(l, offset).value| == if l < 56 then 1 else 1 + ByteLength(l)
  {
    if l >= 56 {
      hide Representable;
      LengthBytes(l);
      IntBytesMinimal(l);
    }
  }

  /** A longer payload has no shorter prefix. */
  lemma PrefixMonotone(l: nat, m: nat, offset: nat)
    requires l <= m && Representable(m) && offset <= 0xC0
    ensures Prefix(l, offset).Ok? && Prefix(m, offset).Ok? && |Prefix(l, offset).value| <= |Prefix(m, offset).value|
  {
    PrefixLength(l, offset);
    PrefixLength(m, offset);
    ByteLengthFits(m);
    hide Prefix, Pow;
    if l >= 56 {
      ByteLengthLeast(l, ByteLength(m));
    }
  }

  /** A long first byte counts the bytes of a length, which a reader takes in any number of bytes. */
  lemma LongPayload(data: bytes, offset: nat, b: bytes, w: nat)
    requires data != [] && offset + 55 + w == data[0] && w > 0
    requires ReadPayload(data, offset) == Ok((b, []))
    ensures 1 + w <= |data| && data == [data[0]] + data[1..1 + w] + b && BigEndian(data[1..1 + w]) == |b|
  {
    hide BigEndian;
    assert data[1 + w + |b|..] == [];
    assert b == data[1 + w..1 + w + |b|];
  }

  lemma ShortPayload(data: bytes, offset: nat, b: bytes)
    requires data != [] && offset <= data[0] < offset + 56
    requires ReadPayload(data, offset) == Ok((b, []))
    ensures data == [data[0]] + b && data[0] == offset + |b|
  {
    hide BigEndian;
    var k: nat := data[0] - offset;
    assert data[1 + k..] == [];
  }

  lemma LongIsShortest(head: byte, bl: bytes, offset: nat, b: bytes)
    requires offset <= 0xC0 && offset + 55 + |bl| == head && bl != [] && BigEndian(bl) == |b|
    requires Representable(|b|)
    ensures Prefix(|b|, offset).Ok? && |Prefix(|b|, offset).value| <= 1 + |bl|
    ensures |Prefix(|b|, offset).value| == 1 + |bl| ==> Prefix(|b|, offset).value == [head] + bl
  {
    PrefixLength(|b|, offset);
    MinimalIsShortest(bl);
    IntBytesMinimal(|b|);
    hide BigEndian, MinimalBytes, Representable;
  }

  /** Whatever prefix a payload is read behind, the printed prefix is the shortest. */
  lemma PayloadIsShortest(data: bytes, offset: nat, b: bytes)
    requires data != [] && offset <= data[0] && offset <= 0xC0 && Representable(|b|)
    requires ReadPayload(data, offset) == Ok((b, []))
    ensures Prefix(|b|, offset).Ok?
    ensures |Prefix(|b|, offset).value| + |b| <= |data|
    ensures |Prefix(|b|, offset).value| + |b| == |data| ==> Prefix(|b|, offset).value + b == data
  {
    PrefixLength(|b|, offset);
    var k: nat := data[0] - offset;
    if k < 56 {
      ShortPayload(data, offset, b);
      hide ReadPayload, BigEndian, ByteLength, IntBytes, Representable;
    } else {
      var w := k - 55;
      LongPayload(data, offset, b, w);
      LongIsShortest(data[0], data[1..1 + w], offset, b);
      hide *;
    }
  }

  /** A string is printed in the fewest bytes that read as it. */
  lemma StringIsShortest(data: bytes, b: bytes)
    requires ReadString(data) == Ok((b, [])) && Representable(|b|)
    ensures PrintString(b).Ok? && |PrintString(b).value| <= |data|
    ensures |PrintString(b).value| == |data| ==> PrintString(b).value == data
  {
    hide ReadPayload, Prefix, Representable;
    if data[0] < 0x80 {
      assert data == data[..1] + data[1..];
    } else {
      PayloadIsShortest(data, 0x80, b);
      PrefixAtLeast(|b|, 0x80);
    }
  }

  lemma PrefixAtLeast(l: nat, offset: nat)
    requires Prefix(l, offset).Ok?
    ensures |Prefix(l, offset).value| >= 1
  {}

  lemma {:induction false} StringsAreShortest(data: bytes, items: seq<bytes>)
    requires ReadStrings(data) == Ok(items) && forall i :: 0 <= i < |items| ==> Representable(|items[i]|)
    ensures PrintItems(items).Ok? && |PrintItems(items).value| <= |data|
    ensures |PrintItems(items).value| == |data| ==> PrintItems(items).value == data
    decreases |data|
  {
    hide PrintString, ReadString, Representable;
    if data != [] {
      var (first, rest) := ReadString(data).value;
      var n := |data| - |rest|;
      ReadStringSplit(data, first, rest);
      assert items[0] == first && items[1..] == ReadStrings(rest).value;
      StringIsShortest(data[..n], first);
      StringsAreShortest(rest, items[1..]);
      assert data == data[..n] + rest;
    }
  }

  /** What is read of a string does not depend on what follows it. */
  lemma ReadStringSplit(data: bytes, b: bytes, rest: bytes)
    requires ReadString(data) == Ok((b, rest))
    ensures |rest| < |data| && data[|data| - |rest|..] == rest
    ensures ReadString(data[..|data| - |rest|]) == Ok((b, []))
  {
    var own := data[..|data| - |rest|];
    if data[0] < 0x80 {
      assert own == data[..1] && own[..1] == own && own[1..] == [];
    } else {
      hide ReadPayload;
      PayloadSplit(data, 0x80, b, rest);
    }
  }

  lemma PayloadSplit(data: bytes, offset: nat, b: bytes, rest: bytes)
    requires data != [] && offset <= data[0] && ReadPayload(data, offset) == Ok((b, rest))
    ensures |rest| < |data| && data[|data| - |rest|..] == rest
    ensures ReadPayload(data[..|data| - |rest|], offset) == Ok((b, []))
  {
    hide BigEndian;
    var own := data[..|data| - |rest|];
    if data[0] - offset < 56 {
      var k: nat := data[0] - offset;
      assert own[1..1 + k] == data[1..1 + k] && own[1 + k..] == [];
    } else {
      var w: nat := data[0] - offset - 55;
      assert own[1..1 + w] == data[1..1 + w];
      assert own[1 + w..1 + w + |b|] == data[1 + w..1 + w + |b|] && own[1 + w + |b|..] == [];
    }
  }

  /** A list is printed in the fewest bytes that read as its items. */
  lemma ListIsShortest(data: bytes, items: seq<bytes>)
    requires ReadList(data) == Ok((items, [])) && Representable(|data|)
    requires forall i :: 0 <= i < |items| ==> Representable(|items[i]|)
    ensures PrintList(items).Ok? && |PrintList(items).value| <= |data|
    ensures |PrintList(items).value| == |data| ==> PrintList(items).value == data
  {
    hide ReadStrings, Prefix, PrintItems, ReadPayload;
    var payload := ReadPayload(data, 0xC0).value.0;
    PayloadInside(data, 0xC0);
    PayloadIsShortest(data, 0xC0, payload);
    StringsAreShortest(payload, items);
    PrefixMonotone(|PrintItems(items).value|, |payload|, 0xC0);
  }

  lemma PayloadInside(data: bytes, offset: nat)
    requires data != [] && offset <= data[0] && ReadPayload(data, offset).Ok?
    ensures |ReadPayload(data, offset).value.0| <= |data|
  {
    hide BigEndian;
  }

  // ----- transactions -----

  /** An unsigned legacy transaction; without a destination it creates a contract. */
  datatype Tx = Tx(nonce: nat, gasPrice: nat, gasLimit: nat, to: Option<bytes>, value: nat, data: bytes, chainId: nat)

  function ToField(to: Option<bytes>): bytes { if to.None? then [] else to.value }

  function Fields(tx: Tx): seq<bytes> {
    [IntBytes(tx.nonce), IntBytes(tx.gasPrice), IntBytes(tx.gasLimit), ToField(tx.to), IntBytes(tx.value), tx.data,
     IntBytes(tx.chainId), [], []]
  }

  /** A destination is 20 bytes. */
  function Unsigned(tx: Tx): Result<bytes>
  {
    if tx.to.Some? && |tx.to.value| != 20 then Err else PrintList(Fields(tx))
  }

  predicate FieldsRepresentable(tx: Tx) {
    && (forall i :: 0 <= i < 9 ==> Representable(|Fields(tx)[i]|))
    && var p := PrintItems(Fields(tx)); p.Ok? && Representable(|p.value|)
  }

  lemma FieldsTell(a: Tx, b: Tx)
    requires Fields(a) == Fields(b) && (a.to.Some? ==> |a.to.value| == 20) && (b.to.Some? ==> |b.to.value| == 20)
    ensures a == b
  {
    var x, y := Fields(a), Fields(b);
    assert x[0] == y[0] && x[1] == y[1] && x[2] == y[2] && x[3] == y[3] && x[4] == y[4] && x[5] == y[5] && x[6] == y[6];
    IntBytesMinimal(a.nonce);
    IntBytesMinimal(b.nonce);
    IntBytesMinimal(a.gasPrice);
    IntBytesMinimal(b.gasPrice);
    IntBytesMinimal(a.gasLimit);
    IntBytesMinimal(b.gasLimit);
    IntBytesMinimal(a.value);
    IntBytesMinimal(b.value);
    IntBytesMinimal(a.chainId);
    IntBytesMinimal(b.chainId);
  }

  /** What is signed determines the transaction: the same bytes, even in front of other bytes, have
      the same nonce, gas price, gas limit, destination, value, data and chain. */
  lemma UnsignedTells(a: Tx, s: bytes, b: Tx, t: bytes)
    requires FieldsRepresentable(a) && FieldsRepresentable(b) && Unsigned(a).Ok? && Unsigned(b).Ok?
    requires Unsigned(a).value + s == Unsigned(b).value + t
    ensures a == b && s == t
  {
    hide Fields, PrintList, PrintItems, ReadList, Representable;
    NineFields(a);
    NineFields(b);
    ListRead(Fields(a), Unsigned(a).value, s);
    ListRead(Fields(b), Unsigned(b).value, t);
    FieldsTell(a, b);
  }

  /** Where each field stands: nine items, the integers in their fewest bytes, and nothing in the places
      of the signature (EIP-155). */
  lemma UnsignedFields(tx: Tx, s: bytes) returns (items: seq<bytes>)
    requires FieldsRepresentable(tx) && Unsigned(tx).Ok?
    ensures ReadList(Unsigned(tx).value + s) == Ok((items, s)) && |items| == 9
    ensures BigEndian(items[0]) == tx.nonce && BigEndian(items[1]) == tx.gasPrice && BigEndian(items[2]) == tx.gasLimit
    ensures items[3] == if tx.to.Some? then tx.to.value else []
    ensures BigEndian(items[4]) == tx.value && items[5] == tx.data && BigEndian(items[6]) == tx.chainId
    ensures items[7] == items[8] == []
    ensures forall i :: i in {0, 1, 2, 4, 6} && items[i] != [] ==> items[i][0] != 0
  {
    items := Fields(tx);
    NoZeroInFront(tx.nonce);
    NoZeroInFront(tx.gasPrice);
    NoZeroInFront(tx.gasLimit);
    NoZeroInFront(tx.value);
    NoZeroInFront(tx.chainId);
    hide IntBytes, BigEndian, PrintItems, PrintList, ReadList, Representable;
    ListRead(items, Unsigned(tx).value, s);
  }

  lemma NoZeroInFront(n: nat)
    ensures BigEndian(IntBytes(n)) == n && (IntBytes(n) != [] ==> IntBytes(n)[0] != 0)
  {
    IntBytesMinimal(n);
    if n > 0 {
      MinimalHead(n);
    }
  }

  lemma NineFields(tx: Tx)
    ensures |Fields(tx)| == 9
  {}
}
