/** Decoding what was encoded: the ABI round trip, and where the source's layout breaks it. */
module AbiRoundTrip {
  import opened Wrappers
  import opened Radix
  import opened Bytes
  import opened BitGroups
  import opened Abi

  // ----- single words -----

  lemma {:induction false} PowMonotone(b: nat, m: nat, n: nat)
    requires b >= 1 && m <= n
    ensures Pow(b, m) <= Pow(b, n)
  {
    if m < n {
      PowMonotone(b, m, n - 1);
      PowPositive(b, n - 1);
      MulMonotone(1, b, Pow(b, n - 1));
    }
  }

  lemma {:induction false} BitsFitWord(bits: nat)
    requires bits <= 256
    ensures Pow(2, bits) <= WordRange()
  {
    PowFacts();
    PowPow(8, WordSize());
    PowMonotone(2, bits, 8 * WordSize());
  }

  lemma WordValue(n: nat, w: bytes)
    requires Word(n) == Ok(w)
    ensures |w| == 32 && BigEndian(w) == n
  {
    BigEndianToBytes(n, 32);
  }

  lemma IntDecoded(bits: nat, v: Val, e: bytes)
    requires 8 <= bits <= 256 && EncodeBase(Int(bits), v) == Ok(e)
    ensures |e| == 32 && DecodeWord(Int(bits), e) == Ok(v)
  {
    BitsFitWord(bits);
    assert Pow(2, bits) == 2 * Pow(2, bits - 1);
    hide Pow, Word, BigEndian;
    WordValue(if v.i >= 0 then v.i else v.i + WordRange(), e);
  }

  lemma BoolDecoded(v: Val, e: bytes)
    requires EncodeBase(Bool, v) == Ok(e)
    ensures |e| == 32 && DecodeWord(Bool, e) == Ok(v)
  {
    PowMonotone(256, 1, 32);
    assert Pow(256, 1) == 256;
    hide Pow;
    BigEndianToBytes(if v.b then 1 else 0, 32);
  }

  lemma PaddedDecoded(k: Kind, v: Val, e: bytes)
    requires ValidKind(k) && (k.Address? || k.FixedBytes?) && EncodeBase(k, v) == Ok(e)
    ensures |e| == 32 && DecodeWord(k, e) == Ok(v)
  {
    if k.Address? {
      assert e[..12] == ZeroBytes(12) && e[12..] == v.raw;
    } else {
      assert e[..k.size] == v.raw;
    }
  }

  lemma BaseDecoded(k: Kind, v: Val, e: bytes)
    requires ValidKind(k) && !k.DynBytes? && !k.Text? && EncodeBase(k, v) == Ok(e)
    ensures |e| == 32 && DecodeWord(k, e) == Ok(v)
  {
    match k
    case UInt(bits) => WordValue(v.i, e);
    case Int(bits) => IntDecoded(bits, v, e);
    case Bool => BoolDecoded(v, e);
    case _ => PaddedDecoded(k, v, e);
  }

  lemma ReadWordAt(w: bytes, data: bytes, pos: nat)
    requires |w| == 32 && StandsAt(w, data, pos)
    ensures ReadWord(data, pos) == Ok(w)
  {}

  lemma WordBytes(n: nat, w: bytes)
    requires Word(n) == Ok(w)
    ensures w == ToBytes(n, 32)
  {}

  lemma ReadNatAt(n: nat, w: bytes, data: bytes, pos: nat)
    requires Word(n) == Ok(w) && StandsAt(w, data, pos)
    ensures ReadNat(data, pos) == Ok(n)
  {
    WordValue(n, w);
  }

  lemma PaddedSpan(n: nat)
    ensures 32 + n + PadLen(n) == BytesSpan(n)
  {
    var q, r := n / 32, n % 32;
    assert n == 32 * q + r;
    if r == 0 {
      assert (n + 31) / 32 == q;
    } else {
      assert (n + 31) / 32 == q + 1;
    }
  }

  lemma DynamicBytesParts(raw: bytes, e: bytes)
    requires EncodeDynamicBytes(raw) == Ok(e)
    ensures Word(|raw|).Ok? && e == Word(|raw|).value + (raw + ZeroBytes(PadLen(|raw|)))
    ensures |Word(|raw|).value| == 32 && |e| == BytesSpan(|raw|)
  {
    PaddedSpan(|raw|);
  }

  lemma DecodeRawBytes(raw: bytes, data: bytes, pos: nat)
    requires ReadNat(data, pos) == Ok(|raw|) && StandsAt(raw, data, pos + 32)
    ensures DecodeDynamicBytes(data, pos) == Ok((VBytes(raw), pos + BytesSpan(|raw|)))
  {}

  lemma DynamicBytesDecoded(raw: bytes, e: bytes, data: bytes, pos: nat)
    requires EncodeDynamicBytes(raw) == Ok(e) && StandsAt(e, data, pos)
    ensures |e| == BytesSpan(|raw|)
    ensures ReadNat(data, pos) == Ok(|raw|)
    ensures DecodeDynamicBytes(data, pos) == Ok((VBytes(raw), pos + |e|))
  {
    hide *;
    DynamicBytesParts(raw, e);
    var w, z := Word(|raw|).value, ZeroBytes(PadLen(|raw|));
    SplitAt(w, raw + z, data, pos);
    SplitAt(raw, z, data, pos + 32);
    ReadNatAt(|raw|, w, data, pos);
    DecodeRawBytes(raw, data, pos);
  }

  // ----- nested values -----

  /** No dynamic array stands directly over a static array: the decoder reads such an array's
      elements as single words. */
  predicate Supported(t: AbiType) {
    match t
    case Base(_) => true
    case Array(dim, elem) => (dim.None? ==> elem.Base? || IsDynamic(elem)) && Supported(elem)
  }

  lemma {:induction false} ItemsStep(elem: AbiType, items: seq<Val>, parts: seq<Part>)
    requires items != [] && EncodeItems(elem, items) == Ok(parts)
    ensures EncodeValue(elem, items[0]) == Ok(parts[0].enc)
    ensures EncodeItems(elem, items[1..]) == Ok(parts[1..])
    ensures |parts| == |items| && parts[0].dyn == IsDynamic(elem)
  {
    assert parts[1..] == EncodeItems(elem, items[1..]).value;
  }

  lemma HeadsStepDyn(parts: seq<Part>, offset: nat, h: bytes)
    requires parts != [] && parts[0].dyn && Heads(parts, offset) == Ok(h)
    ensures Word(offset).Ok? && Heads(parts[1..], offset + |parts[0].enc|).Ok?
    ensures h == Word(offset).value + Heads(parts[1..], offset + |parts[0].enc|).value
    ensures Tails(parts) == parts[0].enc + Tails(parts[1..])
  {}

  lemma {:induction false} DecodeDynamicArray(elem: AbiType, data: bytes, pos: nat, n: nat, items: seq<Val>, span: nat)
    requires ReadNat(data, pos) == Ok(n) && ArraySpan(elem, data, pos + 32, n) == Ok(span)
    requires (if IsDynamic(elem) then DecodeDynElems(elem, data, pos + 32, 0, n)
              else DecodeWords(BaseKind(elem), data, pos + 32, n)) == Ok(items)
    ensures DecodeAt(Array(None, elem), data, pos) == Ok((VList(items), pos + 32 + span))
    ensures ElemSpan(Array(None, elem), data, pos) == Ok(32 + span)
  {}

  lemma {:induction false} DecodeFixedArray(elem: AbiType, data: bytes, pos: nat, n: nat, items: seq<Val>, span: nat)
    requires IsDynamic(elem) && ArraySpan(elem, data, pos, n) == Ok(span)
    requires DecodeDynElems(elem, data, pos, 0, n) == Ok(items)
    ensures DecodeAt(Array(Some(n), elem), data, pos) == Ok((VList(items), pos + span))
    ensures ElemSpan(Array(Some(n), elem), data, pos) == Ok(span)
  {}

  lemma {:induction false} ElementType(t: AbiType)
    requires t.Array? && ValidType(t) && Supported(t)
    ensures ValidType(t.elem) && Supported(t.elem)
    ensures t.dim.None? ==> IsDynamic(t) && (t.elem.Base? || IsDynamic(t.elem))
    ensures t.dim.Some? ==> (IsDynamic(t) <==> IsDynamic(t.elem))
  {}

  lemma {:induction false} EncodedArray(t: AbiType, v: Val, e: bytes)
    requires t.Array? && EncodeValue(t, v) == Ok(e)
    ensures v.VList? && EncodeItems(t.elem, v.items).Ok?
    ensures t.dim.Some? ==> |v.items| == t.dim.value
    ensures var parts := EncodeItems(t.elem, v.items).value;
            match t.dim
            case None => Word(|v.items|).Ok? && Layout(parts).Ok? && e == Word(|v.items|).value + Layout(parts).value
            case Some(_) => if IsDynamic(t.elem) then Layout(parts) == Ok(e) else e == Flat(parts)
  {}

  lemma {:induction false} DecodeStaticArray(elem: AbiType, data: bytes, pos: nat, n: nat, items: seq<Val>, end: nat)
    requires !IsDynamic(elem) && DecodeInline(elem, data, pos, n) == Ok((items, end))
    ensures DecodeAt(Array(Some(n), elem), data, pos) == Ok((VList(items), end))
  {}

  /** Wherever the encoding of a value stands, the decoder reads the value and its exact length. */
  lemma {:induction false} ValueDecoded(t: AbiType, v: Val, e: bytes, data: bytes, pos: nat)
    requires ValidType(t) && Supported(t) && EncodeValue(t, v) == Ok(e) && StandsAt(e, data, pos)
    ensures DecodeAt(t, data, pos) == Ok((v, pos + |e|))
    ensures IsDynamic(t) ==> ElemSpan(t, data, pos) == Ok(|e|)
    decreases t, 0
  {
    hide *;
    if t.Base? {
      BaseValueDecoded(t.kind, v, e, data, pos);
    } else {
      ElementType(t);
      EncodedArray(t, v, e);
      var n, parts := |v.items|, EncodeItems(t.elem, v.items).value;
      if t.dim.None? {
        DynamicArrayDecoded(t.elem, v, parts, Word(n).value, Layout(parts).value, e, data, pos);
      } else if IsDynamic(t.elem) {
        LayoutDecoded(t.elem, v.items, parts, e, data, pos);
        DecodeFixedArray(t.elem, data, pos, n, v.items, |e|);
      } else {
        InlineDecoded(t.elem, v.items, parts, data, pos);
        DecodeStaticArray(t.elem, data, pos, n, v.items, pos + |e|);
      }
    }
  }

  lemma {:induction false} BaseValueDecoded(k: Kind, v: Val, e: bytes, data: bytes, pos: nat)
    requires ValidType(Base(k)) && EncodeValue(Base(k), v) == Ok(e) && StandsAt(e, data, pos)
    ensures DecodeAt(Base(k), data, pos) == Ok((v, pos + |e|))
    ensures IsDynamic(Base(k)) ==> ElemSpan(Base(k), data, pos) == Ok(|e|)
  {
    if IsDynamic(Base(k)) {
      DynamicBytesDecoded(v.raw, e, data, pos);
    } else {
      BaseDecoded(k, v, e);
      ReadWordAt(e, data, pos);
    }
  }

  lemma {:induction false} DynamicArrayDecoded(elem: AbiType, v: Val, parts: seq<Part>, w: bytes, body: bytes, e: bytes,
                                               data: bytes, pos: nat)
    requires ValidType(elem) && Supported(elem) && (elem.Base? || IsDynamic(elem))
    requires v.VList? && EncodeItems(elem, v.items) == Ok(parts)
    requires Word(|v.items|) == Ok(w) && Layout(parts) == Ok(body) && e == w + body
    requires StandsAt(e, data, pos)
    ensures DecodeAt(Array(None, elem), data, pos) == Ok((v, pos + |e|))
    ensures ElemSpan(Array(None, elem), data, pos) == Ok(|e|)
    decreases elem, |v.items| + 2
  {
    hide *;
    var n := |v.items|;
    WordValue(n, w);
    SplitAt(w, body, data, pos);
    ReadNatAt(n, w, data, pos);
    if IsDynamic(elem) {
      LayoutDecoded(elem, v.items, parts, body, data, pos + 32);
    } else {
      WordsLayout(elem, v.items, parts, body, data, pos + 32);
    }
    DecodeDynamicArray(elem, data, pos, n, v.items, |body|);
  }

  lemma {:induction false} LayoutDecoded(elem: AbiType, items: seq<Val>, parts: seq<Part>, e: bytes, data: bytes, seqStart: nat)
    requires ValidType(elem) && Supported(elem) && IsDynamic(elem)
    requires EncodeItems(elem, items) == Ok(parts) && Layout(parts) == Ok(e) && StandsAt(e, data, seqStart)
    ensures DecodeDynElems(elem, data, seqStart, 0, |items|) == Ok(items)
    ensures ArraySpan(elem, data, seqStart, |items|) == Ok(|e|)
    decreases elem, |items| + 1
  {
    hide *;
    var n := |items|;
    ItemsLength(elem, items, parts);
    LayoutParts(parts, e);
    var h := Heads(parts, 32 * n).value;
    HeadsLength(parts, 32 * n);
    SplitAt(h, Tails(parts), data, seqStart);
    DynDecoded(elem, items, parts, h, data, seqStart, 0, n, 32 * n);
    DynamicSpan(elem, data, seqStart, n, |e|);
  }

  lemma {:induction false} LayoutParts(parts: seq<Part>, e: bytes)
    requires Layout(parts) == Ok(e)
    ensures Heads(parts, 32 * |parts|).Ok? && e == Heads(parts, 32 * |parts|).value + Tails(parts)
  {}

  lemma {:induction false} DynamicSpan(elem: AbiType, data: bytes, seqStart: nat, n: nat, span: nat)
    requires IsDynamic(elem) && DynSpanFrom(elem, data, seqStart, 0, n, 32 * n) == Ok(span)
    ensures ArraySpan(elem, data, seqStart, n) == Ok(span)
  {
    if n == 0 {
      assert span == 0;
    }
  }

  lemma {:induction false} HeadsLength(parts: seq<Part>, offset: nat)
    requires Heads(parts, offset).Ok? && forall i :: 0 <= i < |parts| ==> parts[i].dyn
    ensures |Heads(parts, offset).value| == 32 * |parts|
    decreases |parts|
  {
    if parts != [] {
      HeadsLength(parts[1..], offset + |parts[0].enc|);
    }
  }

  lemma DynElemsStep(elem: AbiType, data: bytes, seqStart: nat, i: nat, n: nat, off: nat, v: Val, span: nat,
                     rest: seq<Val>, end: nat)
    requires i < n && ReadNat(data, seqStart + 32 * i) == Ok(off)
    requires DecodeAt(elem, data, seqStart + off) == Ok((v, seqStart + off + span))
    requires ElemSpan(elem, data, seqStart + off) == Ok(span)
    requires DecodeDynElems(elem, data, seqStart, i + 1, n) == Ok(rest)
    requires DynSpanFrom(elem, data, seqStart, i + 1, n, off + span) == Ok(end)
    ensures DecodeDynElems(elem, data, seqStart, i, n) == Ok([v] + rest)
    ensures DynSpanFrom(elem, data, seqStart, i, n, off) == Ok(end)
  {
    hide DecodeAt, ElemSpan;
  }

  lemma {:induction false} DynElemsEmpty(elem: AbiType, data: bytes, seqStart: nat, n: nat, offset: nat, parts: seq<Part>)
    requires parts == []
    ensures DecodeDynElems(elem, data, seqStart, n, n) == Ok([])
    ensures DynSpanFrom(elem, data, seqStart, n, n, offset) == Ok(offset + |Tails(parts)|)
  {}

  lemma {:induction false} ItemsLength(elem: AbiType, items: seq<Val>, parts: seq<Part>)
    requires EncodeItems(elem, items) == Ok(parts)
    ensures |parts| == |items| && forall i :: 0 <= i < |parts| ==> parts[i].dyn == IsDynamic(elem)
  {}

  /** Dynamic members: the heads from `i` on stand in the head section, their encodings in the tail. */
  lemma {:induction false} DynDecoded(elem: AbiType, items: seq<Val>, parts: seq<Part>, h: bytes, data: bytes,
                                      seqStart: nat, i: nat, n: nat, offset: nat)
    requires ValidType(elem) && Supported(elem) && IsDynamic(elem)
    requires EncodeItems(elem, items) == Ok(parts) && i + |items| == n
    requires Heads(parts, offset) == Ok(h)
    requires StandsAt(h, data, seqStart + 32 * i) && StandsAt(Tails(parts), data, seqStart + offset)
    ensures DecodeDynElems(elem, data, seqStart, i, n) == Ok(items)
    ensures DynSpanFrom(elem, data, seqStart, i, n, offset) == Ok(offset + |Tails(parts)|)
    decreases elem, |items|
  {
    hide *;
    ItemsLength(elem, items, parts);
    if items == [] {
      DynElemsEmpty(elem, data, seqStart, n, offset, parts);
    } else {
      var e := parts[0].enc;
      ItemsStep(elem, items, parts);
      HeadsStepDyn(parts, offset, h);
      var w, h' := Word(offset).value, Heads(parts[1..], offset + |e|).value;
      WordValue(offset, w);
      SplitAt(w, h', data, seqStart + 32 * i);
      SplitAt(e, Tails(parts[1..]), data, seqStart + offset);
      ReadNatAt(offset, w, data, seqStart + 32 * i);
      ValueDecoded(elem, items[0], e, data, seqStart + offset);
      DynDecoded(elem, items[1..], parts[1..], h', data, seqStart, i + 1, n, offset + |e|);
      DynElemsStep(elem, data, seqStart, i, n, offset, items[0], |e|, items[1..], offset + |Tails(parts)|);
      assert items == [items[0]] + items[1..];
    }
  }

  lemma {:induction false} InlineDecoded(elem: AbiType, items: seq<Val>, parts: seq<Part>, data: bytes, pos: nat)
    requires ValidType(elem) && Supported(elem) && !IsDynamic(elem)
    requires EncodeItems(elem, items) == Ok(parts) && StandsAt(Flat(parts), data, pos)
    ensures DecodeInline(elem, data, pos, |items|) == Ok((items, pos + |Flat(parts)|))
    decreases elem, |items|
  {
    hide *;
    ItemsLength(elem, items, parts);
    if items == [] {
      InlineEmpty(elem, data, pos, parts);
    } else {
      var e := parts[0].enc;
      ItemsStep(elem, items, parts);
      FlatStep(parts);
      SplitAt(e, Flat(parts[1..]), data, pos);
      ValueDecoded(elem, items[0], e, data, pos);
      InlineDecoded(elem, items[1..], parts[1..], data, pos + |e|);
      InlineStep(elem, data, pos, |items|, items[0], pos + |e|, items[1..], pos + |Flat(parts)|);
      assert items == [items[0]] + items[1..];
    }
  }

  lemma {:induction false} InlineEmpty(elem: AbiType, data: bytes, pos: nat, parts: seq<Part>)
    requires parts == []
    ensures DecodeInline(elem, data, pos, 0) == Ok(([], pos + |Flat(parts)|))
  {}

  lemma InlineStep(elem: AbiType, data: bytes, pos: nat, n: nat, v: Val, p: nat, rest: seq<Val>, end: nat)
    requires n > 0 && DecodeAt(elem, data, pos) == Ok((v, p)) && DecodeInline(elem, data, p, n - 1) == Ok((rest, end))
    ensures DecodeInline(elem, data, pos, n) == Ok(([v] + rest, end))
  {}

  lemma {:induction false} FlatStep(parts: seq<Part>)
    requires parts != []
    ensures Flat(parts) == parts[0].enc + Flat(parts[1..])
  {}

  lemma {:induction false} HeadsStatic(parts: seq<Part>, offset: nat)
    requires forall i :: 0 <= i < |parts| ==> !parts[i].dyn
    ensures Heads(parts, offset) == Ok(Flat(parts)) && Tails(parts) == []
    decreases |parts|
  {
    if parts != [] {
      HeadsStatic(parts[1..], offset);
    }
  }

  /** A dynamic array of single words. */
  lemma {:induction false} WordsLayout(elem: AbiType, items: seq<Val>, parts: seq<Part>, body: bytes, data: bytes, pos: nat)
    requires ValidType(elem) && elem.Base? && !IsDynamic(elem)
    requires EncodeItems(elem, items) == Ok(parts) && Layout(parts) == Ok(body) && StandsAt(body, data, pos)
    ensures DecodeWords(BaseKind(elem), data, pos, |items|) == Ok(items)
    ensures ArraySpan(elem, data, pos, |items|) == Ok(|body|)
  {
    HeadsStatic(parts, 32 * |parts|);
    assert body == Flat(parts) + [] == Flat(parts);
    WordsDecoded(elem, items, parts, data, pos);
  }

  lemma {:induction false} WordsDecoded(elem: AbiType, items: seq<Val>, parts: seq<Part>, data: bytes, pos: nat)
    requires ValidType(elem) && elem.Base? && !IsDynamic(elem)
    requires EncodeItems(elem, items) == Ok(parts) && StandsAt(Flat(parts), data, pos)
    ensures |Flat(parts)| == 32 * |items|
    ensures DecodeWords(elem.kind, data, pos, |items|) == Ok(items)
    decreases |items|
  {
    if items != [] {
      var e := parts[0].enc;
      ItemsStep(elem, items, parts);
      BaseDecoded(elem.kind, items[0], e);
      SplitAt(e, Flat(parts[1..]), data, pos);
      ReadWordAt(e, data, pos);
      WordsDecoded(elem, items[1..], parts[1..], data, pos + 32);
      assert items == [items[0]] + items[1..];
    }
  }

  // ----- argument lists -----

  predicate AnyDynamic(types: seq<AbiType>) {
    exists i :: 0 <= i < |types| && IsDynamic(types[i])
  }

  lemma {:induction false} PartsStep(types: seq<AbiType>, values: seq<Val>, parts: seq<Part>)
    requires types != [] && |types| == |values| && EncodeParts(types, values) == Ok(parts)
    ensures EncodeValue(types[0], values[0]) == Ok(parts[0].enc)
    ensures EncodeParts(types[1..], values[1..]) == Ok(parts[1..])
    ensures |parts| == |types| && parts[0].dyn == IsDynamic(types[0])
  {
    assert parts[1..] == EncodeParts(types[1..], values[1..]).value;
  }

  lemma {:induction false} HeadsStepStatic(parts: seq<Part>, offset: nat, h: bytes)
    requires parts != [] && !parts[0].dyn && Heads(parts, offset) == Ok(h)
    ensures Heads(parts[1..], offset).Ok? && h == parts[0].enc + Heads(parts[1..], offset).value
    ensures Tails(parts) == Tails(parts[1..])
  {
    assert [] + Tails(parts[1..]) == Tails(parts[1..]);
  }

  lemma DecodeSeqDynamic(types: seq<AbiType>, data: bytes, pos: nat, base: nat, off: nat, v: Val, e: nat, rest: seq<Val>)
    requires types != [] && IsDynamic(types[0]) && ReadNat(data, pos) == Ok(off)
    requires DecodeAt(types[0], data, base + off) == Ok((v, e))
    requires DecodeSeq(types[1..], data, pos + 32, base) == Ok(rest)
    ensures DecodeSeq(types, data, pos, base) == Ok([v] + rest)
  {}

  lemma {:induction false} DecodeSeqStatic(types: seq<AbiType>, data: bytes, pos: nat, base: nat, v: Val, e: nat, rest: seq<Val>)
    requires types != [] && !IsDynamic(types[0]) && DecodeAt(types[0], data, pos) == Ok((v, e))
    requires DecodeSeq(types[1..], data, e, base) == Ok(rest)
    ensures DecodeSeq(types, data, pos, base) == Ok([v] + rest)
  {}

  /** Heads at `pos` and tails where the offsets point: the decoder reads the values back. */
  lemma {:induction false} SeqDecoded(types: seq<AbiType>, values: seq<Val>, parts: seq<Part>, h: bytes, data: bytes,
                                      pos: nat, base: nat, offset: nat)
    requires |types| == |values| && forall i :: 0 <= i < |types| ==> ValidType(types[i]) && Supported(types[i])
    requires EncodeParts(types, values) == Ok(parts) && Heads(parts, offset) == Ok(h)
    requires StandsAt(h, data, pos)
    requires AnyDynamic(types) ==> StandsAt(Tails(parts), data, base + offset)
    ensures DecodeSeq(types, data, pos, base) == Ok(values)
    decreases |types|
  {
    hide *;
    if types == [] {
      DecodeSeqEmpty(data, pos, base);
      assert values == [];
    } else {
      var e := parts[0].enc;
      PartsStep(types, values, parts);
      AnyDynamicStep(types);
      if IsDynamic(types[0]) {
        HeadsStepDyn(parts, offset, h);
        var w, h' := Word(offset).value, Heads(parts[1..], offset + |e|).value;
        WordValue(offset, w);
        SplitAt(w, h', data, pos);
        SplitAt(e, Tails(parts[1..]), data, base + offset);
        ReadNatAt(offset, w, data, pos);
        ValueDecoded(types[0], values[0], e, data, base + offset);
        SeqDecoded(types[1..], values[1..], parts[1..], h', data, pos + 32, base, offset + |e|);
        DecodeSeqDynamic(types, data, pos, base, offset, values[0], base + offset + |e|, values[1..]);
      } else {
        HeadsStepStatic(parts, offset, h);
        var h' := Heads(parts[1..], offset).value;
        SplitAt(e, h', data, pos);
        ValueDecoded(types[0], values[0], e, data, pos);
        SeqDecoded(types[1..], values[1..], parts[1..], h', data, pos + |e|, base, offset);
        DecodeSeqStatic(types, data, pos, base, values[0], pos + |e|, values[1..]);
      }
      assert values == [values[0]] + values[1..];
    }
  }

  lemma {:induction false} DecodeSeqEmpty(data: bytes, pos: nat, base: nat)
    ensures DecodeSeq([], data, pos, base) == Ok([])
  {}

  lemma AnyDynamicStep(types: seq<AbiType>)
    requires types != []
    ensures AnyDynamic(types) <==> IsDynamic(types[0]) || AnyDynamic(types[1..])
  {
    if AnyDynamic(types) && !IsDynamic(types[0]) {
      var i :| 0 <= i < |types| && IsDynamic(types[i]);
      assert types[1..][i - 1] == types[i];
    }
    if AnyDynamic(types[1..]) {
      var i :| 0 <= i < |types[1..]| && IsDynamic(types[1..][i]);
      assert types[i + 1] == types[1..][i];
    }
  }

  /** Words of a static value in the head. */
  function HeadWords(t: AbiType): nat
  {
    match t
    case Base(_) => 1
    case Array(Some(n), elem) => if IsDynamic(t) then 1 else n * HeadWords(elem)
    case Array(None, _) => 1
  }

  /** The encoder counts one head word for each argument. That is the real head
      when every argument takes one word, and it does not matter when nothing is dynamic. */
  predicate Aligned(types: seq<AbiType>) {
    AnyDynamic(types) ==> forall i :: 0 <= i < |types| ==> HeadWords(types[i]) == 1
  }

  lemma {:induction false} StaticLength(t: AbiType, v: Val)
    requires ValidType(t) && !IsDynamic(t) && EncodeValue(t, v).Ok?
    ensures |EncodeValue(t, v).value| == 32 * HeadWords(t)
    decreases t, 0
  {
    match t
    case Base(k) =>
      assert EncodeBase(k, v) == EncodeValue(t, v);
      hide EncodeBase, DecodeWord;
      BaseDecoded(k, v, EncodeValue(t, v).value);
    case Array(Some(n), elem) =>
      FlatLength(elem, v.items, EncodeItems(elem, v.items).value, 32 * HeadWords(elem));
      Reorder(n, HeadWords(elem));
  }

  lemma Reorder(n: nat, h: nat)
    ensures n * (32 * h) == 32 * (n * h)
  {}

  lemma OneMore(n: nat, k: nat)
    requires n > 0
    ensures n * k == k + (n - 1) * k
  {}

  lemma {:induction false} FlatLength(elem: AbiType, items: seq<Val>, parts: seq<Part>, k: nat)
    requires ValidType(elem) && !IsDynamic(elem) && EncodeItems(elem, items) == Ok(parts)
    requires k == 32 * HeadWords(elem)
    ensures |Flat(parts)| == |items| * k
    decreases elem, |items|
  {
    if items != [] {
      ItemsStep(elem, items, parts);
      hide *;
      StaticLength(elem, items[0]);
      FlatLength(elem, items[1..], parts[1..], k);
      FlatStep(parts);
      OneMore(|items|, k);
    }
  }

  lemma {:induction false} AlignedHeads(types: seq<AbiType>, values: seq<Val>, parts: seq<Part>, offset: nat)
    requires |types| == |values| && forall i :: 0 <= i < |types| ==> ValidType(types[i]) && HeadWords(types[i]) == 1
    requires EncodeParts(types, values) == Ok(parts) && Heads(parts, offset).Ok?
    ensures |Heads(parts, offset).value| == 32 * |types|
    decreases |types|
  {
    if types != [] {
      PartsStep(types, values, parts);
      if IsDynamic(types[0]) {
        AlignedHeads(types[1..], values[1..], parts[1..], offset + |parts[0].enc|);
      } else {
        StaticLength(types[0], values[0]);
        AlignedHeads(types[1..], values[1..], parts[1..], offset);
      }
    }
  }

  /** Round trip for every list of supported, arbitrarily nested types and every value list
      that encodes, whatever follows the encoding. */
  lemma RoundTrip(types: seq<AbiType>, values: seq<Val>, rest: bytes)
    requires forall i :: 0 <= i < |types| ==> ValidType(types[i]) && Supported(types[i])
    requires Aligned(types) && EncodeArgs(types, values).Ok?
    ensures DecodeArgs(types, EncodeArgs(types, values).value + rest) == Ok(values)
  {
    hide *;
    var parts := EncodedArgs(types, values);
    var n := 32 * |types|;
    var h, tails := Heads(parts, n).value, Tails(parts);
    var data := EncodeArgs(types, values).value + rest;
    assert data == [] + h + (tails + rest) == h + tails + rest;
    StandsInside([], h, tails + rest);
    StandsInside(h, tails, rest);
    if AnyDynamic(types) {
      HeadEnds(types, values, parts);
    }
    SeqDecoded(types, values, parts, h, data, 0, 0, n);
    DecodeArgsIs(types, data);
  }

  lemma EncodedArgs(types: seq<AbiType>, values: seq<Val>) returns (parts: seq<Part>)
    requires EncodeArgs(types, values).Ok?
    ensures |types| == |values| == |parts| && EncodeParts(types, values) == Ok(parts)
    ensures Heads(parts, 32 * |types|).Ok?
    ensures EncodeArgs(types, values).value == Heads(parts, 32 * |types|).value + Tails(parts)
  {
    parts := EncodeParts(types, values).value;
  }

  /** The first tail starts where the first offset points. */
  lemma {:induction false} HeadEnds(types: seq<AbiType>, values: seq<Val>, parts: seq<Part>)
    requires forall i :: 0 <= i < |types| ==> ValidType(types[i])
    requires Aligned(types) && AnyDynamic(types) && |types| == |values|
    requires EncodeParts(types, values) == Ok(parts) && Heads(parts, 32 * |types|).Ok?
    ensures |Heads(parts, 32 * |types|).value| == 32 * |types|
  {
    AlignedHeads(types, values, parts, 32 * |types|);
  }

  lemma {:induction false} DecodeArgsIs(types: seq<AbiType>, data: bytes)
    ensures DecodeArgs(types, data) == DecodeSeq(types, data, 0, 0)
  {}

  /** One value list for one encoding. */
  lemma EncodeInjective(types: seq<AbiType>, v1: seq<Val>, v2: seq<Val>)
    requires forall i :: 0 <= i < |types| ==> ValidType(types[i]) && Supported(types[i])
    requires Aligned(types) && EncodeArgs(types, v1).Ok? && EncodeArgs(types, v1) == EncodeArgs(types, v2)
    ensures v1 == v2
  {
    RoundTrip(types, v1, []);
    RoundTrip(types, v2, []);
  }

  // ----- where the round trip fails -----

  /** A dynamic array of static arrays comes back exactly when it is empty:
      the decoder reads each element as one word, never as a list. */
  lemma {:induction false} ArrayOfStaticArrays(elem: AbiType, items: seq<Val>)
    requires ValidType(elem) && elem.Array? && !IsDynamic(elem)
    requires EncodeArgs([Array(None, elem)], [VList(items)]).Ok?
    ensures var t := Array(None, elem);
            DecodeArgs([t], EncodeArgs([t], [VList(items)]).value) == Ok([VList(items)]) <==> items == []
  {
    var t := Array(None, elem);
    var data := EncodeArgs([t], [VList(items)]).value;
    if items == [] {
      EmptyArray(elem, data);
    } else {
      NestedItems(elem, items);
      DecodedItemsAreFlat(elem, data, items);
    }
  }

  lemma NestedItems(elem: AbiType, items: seq<Val>)
    requires elem.Array? && items != [] && EncodeArgs([Array(None, elem)], [VList(items)]).Ok?
    ensures items[0].VList?
  {
    var t := Array(None, elem);
    var parts := EncodedArgs([t], [VList(items)]);
    PartsStep([t], [VList(items)], parts);
    EncodedArray(t, VList(items), parts[0].enc);
    ItemsStep(elem, items, EncodeItems(elem, items).value);
  }

  lemma {:induction false} DecodedItemsAreFlat(elem: AbiType, data: bytes, items: seq<Val>)
    requires !IsDynamic(elem) && items != [] && items[0].VList?
    ensures DecodeArgs([Array(None, elem)], data) != Ok([VList(items)])
  {
    var t := Array(None, elem);
    var r := DecodeArgs([t], data);
    if r.Ok? {
      var off := ReadNat(data, 0).value;
      var v := DecodeAt(t, data, 0 + off).value.0;
      var rest := DecodeSeq([t][1..], data, 32, 0).value;
      assert r.value == [v] + rest && r.value[0] == v;
      WordsAreFlat(BaseKind(elem), data, off + 32, ReadNat(data, off).value);
      assert v.items == [] || !v.items[0].VList?;
    }
  }

  lemma WordsAreNotLists(k: Kind, w: bytes)
    requires |w| == 32
    ensures DecodeWord(k, w).Ok? ==> !DecodeWord(k, w).value.VList?
  {
    hide BigEndian, Pow, ZeroBytes;
  }

  lemma {:induction false} WordsAreFlat(k: Kind, data: bytes, pos: nat, n: nat)
    ensures var r := DecodeWords(k, data, pos, n);
            r.Ok? ==> forall i :: 0 <= i < |r.value| ==> !r.value[i].VList?
    decreases n
  {
    hide DecodeWord;
    var r := DecodeWords(k, data, pos, n);
    if n > 0 && r.Ok? {
      var v := DecodeWord(k, ReadWord(data, pos).value).value;
      var rest := DecodeWords(k, data, pos + 32, n - 1).value;
      WordsAreNotLists(k, ReadWord(data, pos).value);
      WordsAreFlat(k, data, pos + 32, n - 1);
      assert r.value == [v] + rest;
      forall i | 0 <= i < |r.value|
        ensures !r.value[i].VList?
      {
        assert r.value[i] == if i == 0 then v else rest[i - 1];
      }
    }
  }

  lemma {:induction false} DynamicByLength(t: AbiType)
    requires t.Array? && t.dim.None?
    ensures IsDynamic(t)
  {}

  lemma {:induction false} NoWords(elem: AbiType, data: bytes, pos: nat)
    ensures DecodeWords(BaseKind(elem), data, pos, 0) == Ok([]) && ArraySpan(elem, data, pos, 0) == Ok(0)
  {}

  lemma {:induction false} EmptyArray(elem: AbiType, data: bytes)
    requires !IsDynamic(elem) && EncodeArgs([Array(None, elem)], [VList([])]) == Ok(data)
    ensures DecodeArgs([Array(None, elem)], data) == Ok([VList([])])
  {
    hide *;
    var t := Array(None, elem);
    DynamicByLength(t);
    EmptyArrayBytes(t, data);
    var zero, w := Word(0).value, Word(32).value;
    WordValue(32, w);
    WordValue(0, zero);
    StandsInside([], w, zero);
    StandsInside(w, zero, []);
    assert [] + w + zero == data && w + zero + [] == data;
    ReadNatAt(32, w, data, 0);
    ReadNatAt(0, zero, data, 32);
    NoWords(elem, data, 64);
    DecodeDynamicArray(elem, data, 32, 0, [], 0);
    assert [t][1..] == [];
    DecodeSeqEmpty(data, 32, 0);
    DecodeSeqDynamic([t], data, 0, 0, 32, VList([]), 64, []);
    DecodeArgsIs([t], data);
    assert [VList([])] + [] == [VList([])];
  }

  lemma EmptyArrayBytes(t: AbiType, data: bytes)
    requires t.Array? && t.dim.None? && EncodeArgs([t], [VList([])]) == Ok(data)
    ensures Word(0).Ok? && Word(32).Ok? && data == Word(32).value + Word(0).value
  {
    var parts := EncodeParts([t], [VList([])]).value;
    PartsStep([t], [VList([])], parts);
    var e := parts[0].enc;
    assert EncodeItems(t.elem, []) == Ok([]);
    assert Layout([]) == Ok([]);
    assert e == Word(0).value + [] == Word(0).value;
    assert parts[1..] == [];
    assert Heads(parts[1..], 32 + |e|) == Ok([]);
    HeadsStepDyn(parts, 32, Heads(parts, 32).value);
    assert Word(32).value + [] == Word(32).value && e + [] == e;
  }

  /** A static argument of two words before a `bytes` argument: the offset points at the offset
      word itself. What comes back is right for one byte string only, two copies of that word. */
  lemma {:induction false} MisalignedBytes(t: AbiType, v: Val, raw: bytes, data: bytes)
    requires ValidType(t) && Supported(t) && !IsDynamic(t) && HeadWords(t) == 2
    requires EncodeArgs([t, Base(DynBytes)], [v, VBytes(raw)]) == Ok(data)
    ensures DecodeArgs([t, Base(DynBytes)], data) == Ok([v, VBytes(raw)]) <==> raw == ToBytes(64, 32) + ToBytes(64, 32)
  {
    hide *;
    MisalignedLayout(t, v, raw, data);
    StaticLength(t, v);
    var e, w, b := EncodeValue(t, v).value, Word(64).value, EncodeDynamicBytes(raw).value;
    WordValue(64, w);
    WordBytes(64, w);
    StandsAtThree(e, w, b, data);
    ValueDecoded(t, v, e, data, 0);
    ReadNatAt(64, w, data, 64);
    MisalignedRead(w, b, raw, data);
    MisalignedDecode(t, v, data);
    SameSecond(v, DecodeDynamicBytes(data, 64), VBytes(raw));
  }

  lemma StandsAtThree(e: bytes, w: bytes, b: bytes, data: bytes)
    requires data == e + w + b
    ensures StandsAt(e, data, 0) && StandsAt(w, data, |e|)
    ensures |data| == |e| + |w| + |b| && data[|e| + |w|..] == b
  {
    StandsInside([], e, w + b);
    StandsInside(e, w, b);
    assert data == [] + e + (w + b);
  }

  lemma SameSecond(v: Val, r: Result<(Val, nat)>, x: Val)
    ensures (if r.Ok? then Ok([v, r.value.0]) else Err) == Ok([v, x]) <==> DecodesTo(r, x)
  {
    if r.Ok? {
      assert [v, r.value.0][1] == r.value.0 && [v, x][1] == x;
    }
  }

  /** Decoding such a pair reads the bytes at 64. */
  lemma {:induction false} MisalignedDecode(t: AbiType, v: Val, data: bytes)
    requires !IsDynamic(t) && DecodeAt(t, data, 0) == Ok((v, 64)) && ReadNat(data, 64) == Ok(64)
    ensures var r := DecodeDynamicBytes(data, 64);
            DecodeArgs([t, Base(DynBytes)], data) == if r.Ok? then Ok([v, r.value.0]) else Err
  {
    var types := [t, Base(DynBytes)];
    assert types[1..] == [Base(DynBytes)] && types[1..][1..] == [];
    DecodeSeqEmpty(data, 96, 0);
    var r := DecodeDynamicBytes(data, 64);
    if r.Ok? {
      var got := r.value.0;
      DecodeSeqDynamic(types[1..], data, 64, 0, 64, got, r.value.1, []);
      assert [got] + [] == [got];
      DecodeSeqStatic(types, data, 0, 0, v, 64, [got]);
      assert [v] + [got] == [v, got];
    } else {
      assert DecodeAt(Base(DynBytes), data, 0 + 64).Err?;
      assert DecodeSeq(types[1..], data, 64, 0).Err?;
    }
  }

  lemma LayoutPair(e: bytes, b: bytes)
    ensures Layout([Part(e, false), Part(b, true)]) == if Word(64).Ok? then Ok(e + Word(64).value + b) else Err
  {
    var parts := [Part(e, false), Part(b, true)];
    assert parts[1..] == [Part(b, true)] && parts[1..][1..] == [];
    assert Heads([], 64 + |b|) == Ok([]) && Tails([]) == [];
    if Word(64).Ok? {
      var w := Word(64).value;
      assert w + [] == w && b + [] == b && [] + b == b;
      assert Heads([Part(b, true)], 64) == Ok(w);
      assert Heads(parts, 64) == Ok(e + w);
      assert Tails([Part(b, true)]) == b && Tails(parts) == b;
    } else {
      assert Heads([Part(b, true)], 64).Err? && Heads(parts, 64).Err?;
    }
  }

  lemma {:induction false} MisalignedLayout(t: AbiType, v: Val, raw: bytes, data: bytes)
    requires !IsDynamic(t) && EncodeArgs([t, Base(DynBytes)], [v, VBytes(raw)]) == Ok(data)
    ensures EncodeValue(t, v).Ok? && Word(64).Ok? && EncodeDynamicBytes(raw).Ok?
    ensures data == EncodeValue(t, v).value + Word(64).value + EncodeDynamicBytes(raw).value
  {
    var types, values := [t, Base(DynBytes)], [v, VBytes(raw)];
    var parts := EncodeParts(types, values).value;
    PartsStep(types, values, parts);
    assert types[1..] == [Base(DynBytes)] && values[1..] == [VBytes(raw)];
    PartsStep(types[1..], values[1..], parts[1..]);
    assert parts == [Part(parts[0].enc, false), Part(parts[1].enc, true)];
    LayoutPair(parts[0].enc, parts[1].enc);
  }

  lemma MisalignedRead(w: bytes, b: bytes, raw: bytes, data: bytes)
    requires EncodeDynamicBytes(raw) == Ok(b) && Word(64) == Ok(w) && |w| == 32
    requires ReadNat(data, 64) == Ok(64)
    requires |data| == 96 + |b| && data[96..] == b
    ensures DecodesTo(DecodeDynamicBytes(data, 64), VBytes(raw)) <==> raw == w + w
  {
    hide Word, EncodeDynamicBytes, DecodeDynamicBytes, ReadNat, PadLen;
    DynamicBytesParts(raw, b);
    SixtyFourBytes(data);
    var r := DecodeDynamicBytes(data, 64);
    if |raw| == 64 {
      var got := data[96..160];
      assert b == w + (raw + ZeroBytes(PadLen(64)));
      assert got == b[..64] == w + raw[..32];
      TwoHalves(raw, w);
      assert r.value.0.raw == got;
    } else if r.Ok? {
      assert |r.value.0.raw| == 64;
    }
  }

  predicate DecodesTo(r: Result<(Val, nat)>, v: Val) {
    r.Ok? && r.value.0 == v
  }

  lemma SixtyFourBytes(data: bytes)
    requires ReadNat(data, 64) == Ok(64)
    ensures var r := DecodeDynamicBytes(data, 64);
            if |data| >= 160 then r.Ok? && r.value.0 == VBytes(data[96..160]) else r.Err?
  {}

  lemma TwoHalves(raw: bytes, w: bytes)
    requires |raw| == 64 && |w| == 32
    ensures raw == w + raw[..32] <==> raw == w + w
  {
    assert raw == raw[..32] + raw[32..];
    assert (w + raw[..32])[..32] == w && (w + w)[..32] == w;
  }

  // ----- words the decoder reads but the encoder never writes -----

  /** A signed word is read whatever its high bits are; only sign-extended ones are encodings. */
  lemma {:induction false} SignedWordsRead(bits: nat, w: bytes)
    requires 8 <= bits <= 256 && |w| == 32
    ensures var n, half := BigEndian(w), Pow(2, bits - 1);
            var v := DecodeWord(Int(bits), w);
            v.Ok? && (EncodeBase(Int(bits), v.value) == Ok(w) <==> n < half || n >= WordRange() - half)
  {
    BitsFitWord(bits);
    assert Pow(2, bits) == 2 * Pow(2, bits - 1);
    PowPositive(2, bits - 1);
    WordOfBytes(w);
    hide Pow, BigEndian, Word, WordRange, EncodeBase;
    var n, half := BigEndian(w), Pow(2, bits - 1);
    if n < half {
      EncodedSigned(bits, n);
    } else {
      EncodedSigned(bits, n - WordRange());
    }
  }

  lemma {:induction false} EncodedSigned(bits: nat, i: int)
    requires 8 <= bits <= 256 && i + WordRange() >= 0
    ensures EncodeBase(Int(bits), VInt(i)) ==
            if i + Pow(2, bits - 1) < 0 || i >= Pow(2, bits - 1) then Err
            else if i >= 0 then Word(i) else Word(i + WordRange())
  {
    hide Pow, Word, WordRange;
  }

  lemma WordOfBytes(w: bytes)
    requires |w| == 32
    ensures BigEndian(w) < WordRange() && Word(BigEndian(w)) == Ok(w)
  {
    BigEndianBound(w);
    ToBytesBigEndian(w);
  }

  // ----- what the encoder writes -----

  /** A number, a flag, bytes on the left or on the right of a word, or a length in front of padded bytes. */
  predicate Written(k: Kind, v: Val, e: bytes) {
    match k
    case UInt(_) => v.VInt? && |e| == 32 && BigEndian(e) == v.i
    case Int(_) => v.VInt? && |e| == 32 && BigEndian(e) == if v.i >= 0 then v.i else v.i + Pow(256, 32)
    case Bool => v.VBool? && |e| == 32 && BigEndian(e) == if v.b then 1 else 0
    case Address => v.VBytes? && |e| == 32 && e[12..] == v.raw && forall i :: 0 <= i < 12 ==> e[i] == 0
    case FixedBytes(n) => v.VBytes? && |e| == 32 && n <= 32 && e[..n] == v.raw && forall i :: n <= i < 32 ==> e[i] == 0
    case _ =>
      && v.VBytes? && |e| % 32 == 0 && 32 + |v.raw| <= |e| < 64 + |v.raw|
      && BigEndian(e[..32]) == |v.raw| && e[32..32 + |v.raw|] == v.raw
      && forall i :: 32 + |v.raw| <= i < |e| ==> e[i] == 0
  }

  /** What an encoded base value looks like, byte by byte. */
  lemma {:induction false} BaseWritten(k: Kind, v: Val, e: bytes)
    requires EncodeBase(k, v) == Ok(e)
    ensures Written(k, v, e)
  {
    match k
    case UInt(bits) => WordValue(v.i, e);
    case Int(bits) => WordValue(if v.i >= 0 then v.i else v.i + WordRange(), e);
    case Bool => BoolDecoded(v, e);
    case Address =>
    case FixedBytes(n) =>
    case _ => DynamicWritten(v.raw, e);
  }

  lemma DynamicWritten(raw: bytes, e: bytes)
    requires EncodeDynamicBytes(raw) == Ok(e)
    ensures |e| % 32 == 0 && 32 + |raw| <= |e| < 64 + |raw|
    ensures BigEndian(e[..32]) == |raw| && e[32..32 + |raw|] == raw
    ensures forall i :: 32 + |raw| <= i < |e| ==> e[i] == 0
  {
    DynamicBytesParts(raw, e);
    var w := Word(|raw|).value;
    WordValue(|raw|, w);
    var p := PadLen(|raw|);
    OneWordMore(|raw| + p);
    hide BigEndian, Word, EncodeDynamicBytes, PadLen, BytesSpan;
    ThreePieces(w, raw, ZeroBytes(p), e);
  }

  lemma OneWordMore(n: nat)
    requires n % 32 == 0
    ensures (32 + n) % 32 == 0
  {}

  lemma ThreePieces(w: bytes, raw: bytes, z: bytes, e: bytes)
    requires |w| == 32 && e == w + (raw + z) && forall i :: 0 <= i < |z| ==> z[i] == 0
    ensures |e| == 32 + (|raw| + |z|) && e[..32] == w && e[32..32 + |raw|] == raw && forall i :: 32 + |raw| <= i < |e| ==> e[i] == 0
  {}
}
