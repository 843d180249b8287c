/** The ABI codec: supported types, encoder and decoder (Solidity Contract ABI Specification,
    "Formal Specification of the Encoding"). */
module Abi {
  import opened Wrappers
  import opened Radix
  import opened Bytes

  // ----- types and values -----

  datatype Kind =
    | Address
    | Bool
    | UInt(bits: nat)
    | Int(bits: nat)
    | FixedBytes(size: nat)
    | DynBytes
    | Text

  /** An array type names its outermost dimension first; no length means a dynamic array. */
  datatype AbiType = Base(kind: Kind) | Array(dim: Option<nat>, elem: AbiType)

  /** Text is kept as its UTF-8 bytes. */
  datatype Val =
    | VInt(i: int)
    | VBool(b: bool)
    | VBytes(raw: bytes)
    | VList(items: seq<Val>)

  function WordSize(): nat { 32 }

  /** The number of values of a word, 2^256. */
  function WordRange(): nat { Pow(256, WordSize()) }

  predicate ValidKind(k: Kind) {
    match k
    case UInt(bits) => 8 <= bits <= 256 && bits % 8 == 0
    case Int(bits) => 8 <= bits <= 256 && bits % 8 == 0
    case FixedBytes(n) => 1 <= n <= 32
    case _ => true
  }

  predicate ValidType(t: AbiType) {
    match t
    case Base(k) => ValidKind(k)
    case Array(dim, elem) => (dim.Some? ==> dim.value > 0) && ValidType(elem)
  }

  /** `_is_dynamic` */
  predicate IsDynamic(t: AbiType) {
    match t
    case Base(k) => k.DynBytes? || k.Text?
    case Array(dim, elem) => dim.None? || IsDynamic(elem)
  }

  function BaseKind(t: AbiType): Kind {
    match t
    case Base(k) => k
    case Array(_, elem) => BaseKind(elem)
  }

  // ----- encoder -----

  function Word(n: nat): Result<bytes>
  {
    if n < WordRange() then Ok(ToBytes(n, 32)) else Err
  }

  function ZeroBytes(n: nat): (z: bytes)
    ensures |z| == n && forall i :: 0 <= i < n ==> z[i] == 0
  {
    seq(n, _ => 0)
  }

  /** Zero bytes up to the next multiple of 32. */
  function PadLen(n: nat): (p: nat)
    ensures p < 32 && (n + p) % 32 == 0
  {
    (32 - n % 32) % 32
  }

  function EncodeDynamicBytes(raw: bytes): Result<bytes>
  {
    var n :- Word(|raw|);
    Ok(n + raw + ZeroBytes(PadLen(|raw|)))
  }

  function EncodeBase(k: Kind, v: Val): Result<bytes>
  {
    match k
    case UInt(bits) =>
      if v.VInt? && 0 <= v.i < Pow(2, bits) then Word(v.i) else Err
    case Int(bits) =>
      if bits == 0 || !v.VInt? || v.i + Pow(2, bits - 1) < 0 || v.i >= Pow(2, bits - 1) then Err
      else if v.i >= 0 then Word(v.i)
      else if v.i + WordRange() >= 0 then Word(v.i + WordRange())
      else Err
    case Address =>
      if v.VBytes? && |v.raw| == 20 then Ok(ZeroBytes(12) + v.raw) else Err
    case Bool =>
      if v.VBool? then Ok(ToBytes(if v.b then 1 else 0, 32)) else Err
    case FixedBytes(n) =>
      if v.VBytes? && |v.raw| == n <= 32 then Ok(v.raw + ZeroBytes(32 - n)) else Err
    case DynBytes =>
      if v.VBytes? then EncodeDynamicBytes(v.raw) else Err
    case Text =>
      if v.VBytes? then EncodeDynamicBytes(v.raw) else Err
  }

  /** One encoded member of a head/tail sequence. */
  datatype Part = Part(enc: bytes, dyn: bool)

  /** The heads of `parts`, whose first dynamic member stands at `offset`. */
  function Heads(parts: seq<Part>, offset: nat): Result<bytes>
  {
    if parts == [] then Ok([])
    else if parts[0].dyn then
      var w :- Word(offset);
      var rest :- Heads(parts[1..], offset + |parts[0].enc|);
      Ok(w + rest)
    else
      var rest :- Heads(parts[1..], offset);
      Ok(parts[0].enc + rest)
  }

  function Tails(parts: seq<Part>): bytes
  {
    if parts == [] then []
    else (if parts[0].dyn then parts[0].enc else []) + Tails(parts[1..])
  }

  /** Head/tail layout with offsets counted from 32 bytes for each member. */
  function Layout(parts: seq<Part>): Result<bytes>
  {
    var head :- Heads(parts, 32 * |parts|);
    Ok(head + Tails(parts))
  }

  function Flat(parts: seq<Part>): bytes
  {
    if parts == [] then [] else parts[0].enc + Flat(parts[1..])
  }

  function EncodeValue(t: AbiType, v: Val): Result<bytes>
    decreases t, 0
  {
    match t
    case Base(k) => EncodeBase(k, v)
    case Array(dim, elem) =>
      if !v.VList? || (dim.Some? && |v.items| != dim.value) then Err
      else
        var parts :- EncodeItems(elem, v.items);
        if dim.None? then
          var n :- Word(|v.items|);
          var body :- Layout(parts);
          Ok(n + body)
        else if IsDynamic(elem) then Layout(parts)
        else Ok(Flat(parts))
  }

  function EncodeItems(elem: AbiType, items: seq<Val>): (r: Result<seq<Part>>)
    ensures r.Ok? ==> |r.value| == |items| && forall i :: 0 <= i < |items| ==> r.value[i].dyn == IsDynamic(elem)
    decreases elem, |items|
  {
    if items == [] then Ok([])
    else
      var first :- EncodeValue(elem, items[0]);
      var rest :- EncodeItems(elem, items[1..]);
      Ok([Part(first, IsDynamic(elem))] + rest)
  }

  function EncodeParts(types: seq<AbiType>, values: seq<Val>): (r: Result<seq<Part>>)
    requires |types| == |values|
    ensures r.Ok? ==> |r.value| == |types| && forall i :: 0 <= i < |types| ==> r.value[i].dyn == IsDynamic(types[i])
  {
    if types == [] then Ok([])
    else
      var first :- EncodeValue(types[0], values[0]);
      var rest :- EncodeParts(types[1..], values[1..]);
      Ok([Part(first, IsDynamic(types[0]))] + rest)
  }

  function EncodeArgs(types: seq<AbiType>, values: seq<Val>): Result<bytes>
  {
    if |types| != |values| then Err
    else
      var parts :- EncodeParts(types, values);
      Layout(parts)
  }

  /** The loop that fills head and tail side by side. */
  method EncodeSequence(parts: seq<Part>) returns (r: Result<bytes>)
    ensures r == Layout(parts)
  {
    var head: bytes, tail: bytes := [], [];
    var offset: nat := 32 * |parts|;
    ghost var goal := Layout(parts);
    assert parts[0..] == parts;
    assert goal.Ok? ==> [] + Heads(parts, offset).value + ([] + Tails(parts)) == goal.value;
    assert goal == HeadsThenTails(head, tail, parts, offset);
    hide Word, Heads, Tails, HeadsThenTails;
    for i := 0 to |parts|
      invariant goal == HeadsThenTails(head, tail, parts[i..], offset)
    {
      var part := parts[i];
      assert parts[i..][0] == part && parts[i..][1..] == parts[i + 1..];
      NextPart(head, tail, parts[i..], offset);
      if part.dyn {
        var w := Word(offset);
        if w.Err? {
          return Err;
        }
        head := head + w.value;
        tail := tail + part.enc;
        offset := offset + |part.enc|;
      } else {
        head := head + part.enc;
      }
    }
    assert parts[|parts|..] == [];
    NoPartsLeft(head, tail, offset);
    return Ok(head + tail);
  }

  ghost function HeadsThenTails(head: bytes, tail: bytes, rest: seq<Part>, offset: nat): Result<bytes>
  {
    var h :- Heads(rest, offset);
    Ok(head + h + (tail + Tails(rest)))
  }

  lemma NoPartsLeft(head: bytes, tail: bytes, offset: nat)
    ensures HeadsThenTails(head, tail, [], offset) == Ok(head + tail)
  {
    assert head + [] + (tail + []) == head + tail;
  }

  lemma NextPart(head: bytes, tail: bytes, rest: seq<Part>, offset: nat)
    requires rest != []
    ensures var p := rest[0];
            HeadsThenTails(head, tail, rest, offset) ==
            if p.dyn then
              (if Word(offset).Err? then Err
               else HeadsThenTails(head + Word(offset).value, tail + p.enc, rest[1..], offset + |p.enc|))
            else HeadsThenTails(head + p.enc, tail, rest[1..], offset)
  {
    var p := rest[0];
    if p.dyn {
      if Word(offset).Ok? && Heads(rest[1..], offset + |p.enc|).Ok? {
        var w, h := Word(offset).value, Heads(rest[1..], offset + |p.enc|).value;
        assert head + (w + h) == head + w + h;
        assert tail + (p.enc + Tails(rest[1..])) == tail + p.enc + Tails(rest[1..]);
      }
    } else if Heads(rest[1..], offset).Ok? {
      var h := Heads(rest[1..], offset).value;
      assert head + (p.enc + h) == head + p.enc + h;
      assert [] + Tails(rest[1..]) == Tails(rest[1..]);
    }
  }

  // ----- decoder -----

  function ReadWord(data: bytes, pos: nat): (r: Result<bytes>)
    ensures r.Ok? ==> |r.value| == 32 && pos + 32 <= |data| && r.value == data[pos..pos + 32]
  {
    if pos + 32 <= |data| then Ok(data[pos..pos + 32]) else Err
  }

  function ReadNat(data: bytes, pos: nat): Result<nat>
  {
    var w :- ReadWord(data, pos);
    Ok(BigEndian(w))
  }

  function DecodeWord(k: Kind, w: bytes): Result<Val>
    requires |w| == 32
  {
    var n := BigEndian(w);
    match k
    case UInt(bits) => if n >= Pow(2, bits) then Err else Ok(VInt(n))
    case Int(bits) => if bits > 0 && n >= Pow(2, bits - 1) then Ok(VInt(n - WordRange())) else Ok(VInt(n))
    case Address => if w[..12] != ZeroBytes(12) then Err else Ok(VBytes(w[12..]))
    case Bool => if n > 1 then Err else Ok(VBool(n == 1))
    case FixedBytes(size) => if size <= 32 then Ok(VBytes(w[..size])) else Err
    case _ => Err
  }

  /** Length word plus contents padded to whole words. */
  function BytesSpan(n: nat): nat { 32 + (n + 31) / 32 * 32 }

  function DecodeDynamicBytes(data: bytes, pos: nat): Result<(Val, nat)>
  {
    var n :- ReadNat(data, pos);
    if pos + 32 + n > |data| then Err
    else Ok((VBytes(data[pos + 32..pos + 32 + n]), pos + BytesSpan(n)))
  }

  /** The value at `pos` and the position after it. */
  function DecodeAt(t: AbiType, data: bytes, pos: nat): Result<(Val, nat)>
    decreases t, 0, 0
  {
    match t
    case Base(k) =>
      if IsDynamic(t) then DecodeDynamicBytes(data, pos)
      else
        var w :- ReadWord(data, pos);
        var v :- DecodeWord(k, w);
        Ok((v, pos + 32))
    case Array(None, elem) =>
      var n :- ReadNat(data, pos);
      var items :- if IsDynamic(elem) then DecodeDynElems(elem, data, pos + 32, 0, n)
                   else DecodeWords(BaseKind(elem), data, pos + 32, n);
      var span :- ArraySpan(elem, data, pos + 32, n);
      Ok((VList(items), pos + 32 + span))
    case Array(Some(n), elem) =>
      if IsDynamic(elem) then
        var items :- DecodeDynElems(elem, data, pos, 0, n);
        var span :- ArraySpan(elem, data, pos, n);
        Ok((VList(items), pos + span))
      else
        var (items, e) :- DecodeInline(elem, data, pos, n);
        Ok((VList(items), e))
  }

  /** `n` static values one after another. */
  function DecodeInline(elem: AbiType, data: bytes, pos: nat, n: nat): Result<(seq<Val>, nat)>
    decreases elem, 1, n
  {
    if n == 0 then Ok(([], pos))
    else
      var (v, p) :- DecodeAt(elem, data, pos);
      var (rest, e) :- DecodeInline(elem, data, p, n - 1);
      Ok(([v] + rest, e))
  }

  /** `n` words of one kind. */
  function DecodeWords(k: Kind, data: bytes, pos: nat, n: nat): Result<seq<Val>>
    decreases n
  {
    if n == 0 then Ok([])
    else
      var w :- ReadWord(data, pos);
      var v :- DecodeWord(k, w);
      var rest :- DecodeWords(k, data, pos + 32, n - 1);
      Ok([v] + rest)
  }

  /** Members `i` and on of the `n` dynamic values whose heads start at `seqStart`. */
  function DecodeDynElems(elem: AbiType, data: bytes, seqStart: nat, i: nat, n: nat): Result<seq<Val>>
    requires i <= n
    decreases elem, 1, n - i
  {
    if i == n then Ok([])
    else
      var off :- ReadNat(data, seqStart + 32 * i);
      var (v, _) :- DecodeAt(elem, data, seqStart + off);
      var rest :- DecodeDynElems(elem, data, seqStart, i + 1, n);
      Ok([v] + rest)
  }

  function Max(x: nat, y: nat): nat { if x >= y then x else y }

  /** Bytes of an array's element section. */
  function ArraySpan(elem: AbiType, data: bytes, seqStart: nat, n: nat): Result<nat>
    decreases elem, 2, 0
  {
    if n == 0 then Ok(0)
    else if !IsDynamic(elem) then Ok(32 * n)
    else DynSpanFrom(elem, data, seqStart, 0, n, 32 * n)
  }

  function DynSpanFrom(elem: AbiType, data: bytes, seqStart: nat, i: nat, n: nat, end: nat): Result<nat>
    requires i <= n
    decreases elem, 1, n - i
  {
    if i == n then Ok(end)
    else
      var off :- ReadNat(data, seqStart + 32 * i);
      var span :- ElemSpan(elem, data, seqStart + off);
      DynSpanFrom(elem, data, seqStart, i + 1, n, Max(end, off + span))
  }

  /** Bytes of one element's encoding. */
  function ElemSpan(t: AbiType, data: bytes, pos: nat): Result<nat>
    decreases t, 0, 0
  {
    match t
    case Base(k) =>
      if IsDynamic(t) then
        var n :- ReadNat(data, pos);
        Ok(BytesSpan(n))
      else Ok(32)
    case Array(None, elem) =>
      var n :- ReadNat(data, pos);
      var span :- ArraySpan(elem, data, pos + 32, n);
      Ok(32 + span)
    case Array(Some(n), elem) => ArraySpan(elem, data, pos, n)
  }

  /** A head/tail sequence at `pos`; offsets count from `base`. */
  function DecodeSeq(types: seq<AbiType>, data: bytes, pos: nat, base: nat): Result<seq<Val>>
    decreases |types|
  {
    if types == [] then Ok([])
    else
      var t := types[0];
      if IsDynamic(t) then
        var off :- ReadNat(data, pos);
        var (v, _) :- DecodeAt(t, data, base + off);
        var rest :- DecodeSeq(types[1..], data, pos + 32, base);
        Ok([v] + rest)
      else
        var (v, p) :- DecodeAt(t, data, pos);
        var rest :- DecodeSeq(types[1..], data, p, base);
        Ok([v] + rest)
  }

  function DecodeArgs(types: seq<AbiType>, data: bytes): Result<seq<Val>>
  {
    DecodeSeq(types, data, 0, 0)
  }

  /** A value that is read, or an offset where it is still to be read. */
  datatype Slot = Done(v: Val) | At(off: nat)

  ghost function Resolve(types: seq<AbiType>, slots: seq<Slot>, data: bytes, base: nat): Result<seq<Val>>
    requires |slots| <= |types|
  {
    if slots == [] then Ok([])
    else
      var v :- SlotValue(types[0], slots[0], data, base);
      var rest :- Resolve(types[1..], slots[1..], data, base);
      Ok([v] + rest)
  }

  ghost function Both(first: Result<seq<Val>>, second: Result<seq<Val>>): Result<seq<Val>>
  {
    if first.Ok? && second.Ok? then Ok(first.value + second.value) else Err
  }

  lemma {:induction false} ResolveMore(types: seq<AbiType>, slots: seq<Slot>, slot: Slot, data: bytes, base: nat)
    requires |slots| < |types|
    ensures Resolve(types, slots + [slot], data, base) ==
            Both(Resolve(types, slots, data, base), Resolve(types[|slots|..], [slot], data, base))
  {
    var all := slots + [slot];
    if slots == [] {
      assert all == [slot];
      var r := Resolve(types, [slot], data, base);
      assert r.Ok? ==> [] + r.value == r.value;
    } else {
      assert all[1..] == slots[1..] + [slot];
      assert types[1..][|slots| - 1..] == types[|slots|..];
      ResolveMore(types[1..], slots[1..], slot, data, base);
      var r0 := Resolve(types[1..], slots[1..], data, base);
      var r1 := Resolve(types[|slots|..], [slot], data, base);
      var head := Resolve(types, slots[..1], data, base);
      if r0.Ok? && r1.Ok? {
        assert forall v: Val :: [v] + (r0.value + r1.value) == [v] + r0.value + r1.value;
      }
    }
  }

  lemma BothAssociative(a: Result<seq<Val>>, b: Result<seq<Val>>, c: Result<seq<Val>>)
    ensures Both(a, Both(b, c)) == Both(Both(a, b), c)
  {
    if a.Ok? && b.Ok? && c.Ok? {
      assert a.value + (b.value + c.value) == a.value + b.value + c.value;
    }
  }

  /** Reading one more head: the slot it fills, and the position after it. */
  lemma {:induction false} DecodeSeqStep(types: seq<AbiType>, data: bytes, pos: nat, base: nat, slot: Slot, next: nat)
    requires types != []
    requires if IsDynamic(types[0]) then
               ReadNat(data, pos).Ok? && slot == At(ReadNat(data, pos).value) && next == pos + 32
             else DecodeAt(types[0], data, pos).Ok?
                  && slot == Done(DecodeAt(types[0], data, pos).value.0)
                  && next == DecodeAt(types[0], data, pos).value.1
    ensures DecodeSeq(types, data, pos, base) ==
            Both(Resolve(types, [slot], data, base), DecodeSeq(types[1..], data, next, base))
  {
    assert Resolve(types[1..], [slot][1..], data, base) == Ok([]);
    assert forall v: Val :: [v] + [] == [v];
  }

  /** The two passes of the source: heads first, then the values the heads point to. */
  method DecodeSequence(types: seq<AbiType>, data: bytes, start: nat, base: nat) returns (r: Result<seq<Val>>)
    ensures r == DecodeSeq(types, data, start, base)
  {
    var slots: seq<Slot> := [];
    var pos := start;
    ghost var goal := DecodeSeq(types, data, start, base);
    assert types[0..] == types;
    assert goal.Ok? ==> [] + goal.value == goal.value;
    for i := 0 to |types|
      invariant |slots| == i
      invariant goal == Both(Resolve(types, slots, data, base), DecodeSeq(types[i..], data, pos, base))
    {
      ghost var rest := types[i..];
      assert rest[0] == types[i] && rest[1..] == types[i + 1..];
      var slot;
      var next;
      if IsDynamic(types[i]) {
        var off := ReadNat(data, pos);
        if off.Err? {
          return Err;
        }
        slot, next := At(off.value), pos + 32;
      } else {
        var v := DecodeAt(types[i], data, pos);
        if v.Err? {
          return Err;
        }
        slot, next := Done(v.value.0), v.value.1;
      }
      DecodeSeqStep(rest, data, pos, base, slot, next);
      ResolveMore(types, slots, slot, data, base);
      BothAssociative(Resolve(types, slots, data, base), Resolve(rest, [slot], data, base), DecodeSeq(rest[1..], data, next, base));
      slots := slots + [slot];
      pos := next;
    }
    assert types[|types|..] == [];
    ghost var all := Resolve(types, slots, data, base);
    assert all.Ok? ==> all.value + [] == all.value;
    r := FillDeferred(types, slots, data, base);
  }

  /** Reading one deferred value. */
  lemma {:induction false} ResolveStep(types: seq<AbiType>, slots: seq<Slot>, data: bytes, base: nat, values: seq<Val>)
    requires slots != [] && |slots| <= |types|
    ensures var v := SlotValue(types[0], slots[0], data, base);
            var rest := Resolve(types[1..], slots[1..], data, base);
            Both(Ok(values), Resolve(types, slots, data, base)) ==
            if v.Err? then Err else Both(Ok(values + [v.value]), rest)
  {
    var v := SlotValue(types[0], slots[0], data, base);
    var rest := Resolve(types[1..], slots[1..], data, base);
    if v.Ok? && rest.Ok? {
      assert values + ([v.value] + rest.value) == values + [v.value] + rest.value;
    }
  }

  function SlotValue(t: AbiType, slot: Slot, data: bytes, base: nat): Result<Val>
  {
    match slot
    case Done(v) => Ok(v)
    case At(off) => var (v, _) :- DecodeAt(t, data, base + off); Ok(v)
  }

  method FillDeferred(types: seq<AbiType>, slots: seq<Slot>, data: bytes, base: nat) returns (r: Result<seq<Val>>)
    requires |slots| == |types|
    ensures r == Resolve(types, slots, data, base)
  {
    var values: seq<Val> := [];
    ghost var goal := Resolve(types, slots, data, base);
    assert types[0..] == types && slots[0..] == slots;
    assert goal.Ok? ==> [] + goal.value == goal.value;
    for i := 0 to |slots|
      invariant goal == Both(Ok(values), Resolve(types[i..], slots[i..], data, base))
    {
      assert types[i..][1..] == types[i + 1..] && slots[i..][1..] == slots[i + 1..];
      ResolveStep(types[i..], slots[i..], data, base, values);
      var v := SlotValue(types[i], slots[i], data, base);
      if v.Err? {
        return Err;
      }
      values := values + [v.value];
    }
    assert types[|slots|..] == [] && slots[|slots|..] == [];
    assert values + [] == values;
    return Ok(values);
  }
}
