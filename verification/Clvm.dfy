/** CLVM s-expressions, their byte form, and the reader and printer of that form. */
module Clvm {
  import opened Wrappers
  import opened Radix
  import opened Bytes

  datatype Sexp = Atom(b: bytes) | Pair(first: Sexp, rest: Sexp)

  const NIL := Atom([])

  // ----- specification of the printer -----

  /** The printer stops at atoms of 0x2000 bytes. */
  const MAX_ATOM := 0x2000

  predicate Printable(x: Sexp) {
    match x
    case Atom(b) => |b| < MAX_ATOM
    case Pair(f, r) => Printable(f) && Printable(r)
  }

  function PrintAtom(b: bytes): bytes
    requires |b| < MAX_ATOM
  {
    var n := |b|;
    if n == 0 then [0x80]
    else if n == 1 && b[0] < 0x80 then b
    else if n < 0x40 then [0x80 + n] + b
    else [0xC0 + n / 256, n % 256] + b
  }

  function Print(x: Sexp): bytes
    requires Printable(x)
  {
    match x
    case Atom(b) => PrintAtom(b)
    case Pair(f, r) => [0xFF] + Print(f) + Print(r)
  }

  function Size(x: Sexp): (n: nat)
    ensures n >= 1
  {
    match x
    case Atom(_) => 1
    case Pair(f, r) => 1 + Size(f) + Size(r)
  }

  // ----- specification of the reader -----

  /** Number of bytes of the size field that starts with `b`; None for the refused prefixes. */
  function PrefixWidth(b: byte): Option<nat>
  {
    if b <= 0x7F then Some(0)
    else if b <= 0xBF then Some(1)
    else if b <= 0xDF then Some(2)
    else if b <= 0xEF then Some(3)
    else if b <= 0xF7 then Some(4)
    else None
  }

  /** The part of a size prefix's first byte that belongs to the size. */
  function PrefixLow(b: byte, width: nat): nat
    requires 1 <= width <= 4
  {
    if width == 1 then b % 0x40
    else if width == 2 then b % 0x20
    else if width == 3 then b % 0x10
    else b % 0x08
  }

  function ReadAtom(data: bytes, p: nat): (r: Result<(bytes, nat)>)
    requires p < |data|
    ensures r.Ok? ==> p < r.value.1 <= |data|
  {
    var b := data[p];
    match PrefixWidth(b)
    case None => Err
    case Some(width) =>
      if width == 0 then Ok(([b], p + 1))
      else if p + width > |data| then Err
      else
        var n := Value([PrefixLow(b, width)] + data[p + 1..p + width], 256);
        if p + width + n > |data| then Err
        else Ok((data[p + width..p + width + n], p + width + n))
  }

  /** Reads one program at `p`: the program and the position after it. */
  function Parse(data: bytes, p: nat): (r: Result<(Sexp, nat)>)
    ensures r.Ok? ==> p < r.value.1 <= |data|
    decreases |data| - p
  {
    if p >= |data| then Err
    else if data[p] == 0xFF then
      var (f, q) :- Parse(data, p + 1);
      var (r, e) :- Parse(data, q);
      Ok((Pair(f, r), e))
    else
      var (b, e) :- ReadAtom(data, p);
      Ok((Atom(b), e))
  }

  /** Reads a byte string that is one program and nothing else. */
  function Deser(data: bytes): Result<Sexp>
  {
    var (x, e) :- Parse(data, 0);
    if e == |data| then Ok(x) else Err
  }

  // ----- the reader looks only at the bytes it consumes -----

  lemma ReadAtomLocal(d1: bytes, p1: nat, d2: bytes, p2: nat)
    requires p1 < |d1| && ReadAtom(d1, p1).Ok?
    requires SameStretch(d1, p1, d2, p2, ReadAtom(d1, p1).value.1 - p1)
    ensures p2 < |d2|
    ensures var (b, e) := ReadAtom(d1, p1).value;
            ReadAtom(d2, p2) == Ok((b, p2 + (e - p1)))
  {
    var (b, e) := ReadAtom(d1, p1).value;
    var n := e - p1;
    SameByte(d1, p1, d2, p2, n);
    var width := PrefixWidth(d1[p1]).value;
    if width > 0 {
      SameParts(d1, p1, d2, p2, n, 1, width);
      SameParts(d1, p1, d2, p2, n, width, n);
    }
  }

  lemma ParsePair(data: bytes, p: nat, f: Sexp, q: nat, r: Sexp, e: nat)
    requires p < |data| && data[p] == 0xFF
    requires Parse(data, p + 1) == Ok((f, q)) && Parse(data, q) == Ok((r, e))
    ensures Parse(data, p) == Ok((Pair(f, r), e))
  {}

  lemma {:induction false} ParseAtomLocal(d1: bytes, p1: nat, x: Sexp, e: nat, d2: bytes, p2: nat)
    requires p1 < |d1| && d1[p1] != 0xFF
    requires Parse(d1, p1) == Ok((x, e))
    requires SameStretch(d1, p1, d2, p2, e - p1)
    ensures Parse(d2, p2) == Ok((x, p2 + (e - p1)))
  {
    hide ReadAtom, SameStretch;
    SameByte(d1, p1, d2, p2, e - p1);
    ReadAtomLocal(d1, p1, d2, p2);
  }

  /** Equal bytes at two places read as the same program, whatever surrounds them. */
  lemma {:induction false} ParseLocal(d1: bytes, p1: nat, x: Sexp, e: nat, d2: bytes, p2: nat)
    requires Parse(d1, p1) == Ok((x, e)) && p1 <= e
    requires SameStretch(d1, p1, d2, p2, e - p1)
    ensures Parse(d2, p2) == Ok((x, p2 + (e - p1)))
    decreases |d1| - p1, 1
  {
    if d1[p1] == 0xFF {
      var (f, q) := Parse(d1, p1 + 1).value;
      ParsePairLocal(d1, p1, f, q, x.rest, e, d2, p2);
    } else {
      ParseAtomLocal(d1, p1, x, e, d2, p2);
    }
  }

  lemma {:induction false} ParsePairLocal(d1: bytes, p1: nat, f: Sexp, q: nat, r: Sexp, e: nat, d2: bytes, p2: nat)
    requires p1 < |d1| && d1[p1] == 0xFF && p1 < q < e
    requires Parse(d1, p1 + 1) == Ok((f, q)) && Parse(d1, q) == Ok((r, e))
    requires SameStretch(d1, p1, d2, p2, e - p1)
    ensures Parse(d2, p2) == Ok((Pair(f, r), p2 + (e - p1)))
    decreases |d1| - p1, 0
  {
    hide Parse;
    var n := e - p1;
    var q2 := p2 + (q - p1);
    SameByte(d1, p1, d2, p2, n);
    SameParts(d1, p1, d2, p2, n, 1, q - p1);
    SameParts(d1, p1, d2, p2, n, q - p1, n);
    ParseLocal(d1, p1 + 1, f, q, d2, p2 + 1);
    ParseLocal(d1, q, r, e, d2, q2);
    ParsePair(d2, p2, f, q2, r, p2 + n);
  }

  // ----- reading what was printed -----

  lemma ReadPrintedAtom(pre: bytes, b: bytes, post: bytes)
    requires |b| < MAX_ATOM
    ensures var data := pre + PrintAtom(b) + post;
            && |pre| < |data| && data[|pre|] != 0xFF
            && ReadAtom(data, |pre|) == Ok((b, |pre| + |PrintAtom(b)|))
  {
    var n, s := |b|, PrintAtom(b);
    var data := pre + s + post;
    var p := |pre|;
    assert data[p] == s[0];
    if n == 0 {
      assert data[p + 1..p + 1] == [];
      assert [PrefixLow(0x80, 1)] + [] == [0];
      assert Value([0], 256) == Value([], 256) * 256 + 0;
      assert data[p + 1..p + 1 + 0] == b;
    } else if n == 1 && b[0] < 0x80 {
      assert data[p] == b[0] && [data[p]] == b;
    } else if n < 0x40 {
      assert data[p + 1..p + 1] == [];
      assert [PrefixLow(s[0], 1)] + [] == [n];
      assert Value([n], 256) == Value([], 256) * 256 + n;
      assert data[p + 1..p + 1 + n] == b;
    } else {
      assert data[p + 1..p + 2] == [n % 256];
      assert PrefixLow(s[0], 2) == n / 256;
      var f := [n / 256, n % 256];
      assert [PrefixLow(s[0], 2)] + data[p + 1..p + 2] == f;
      assert f[..1] == [n / 256];
      assert Value([n / 256], 256) == Value([], 256) * 256 + n / 256;
      assert Value(f, 256) == n;
      assert data[p + 2..p + 2 + n] == b;
    }
  }

  lemma {:induction false} ParseAtom(pre: bytes, b: bytes, post: bytes)
    requires Printable(Atom(b))
    ensures Parse(pre + Print(Atom(b)) + post, |pre|) == Ok((Atom(b), |pre| + |Print(Atom(b))|))
  {
    hide PrintAtom, ReadAtom;
    ReadPrintedAtom(pre, b, post);
  }

  lemma {:induction false} PrintPair(f: Sexp, r: Sexp)
    requires Printable(Pair(f, r))
    ensures Printable(f) && Printable(r) && Print(Pair(f, r)) == [0xFF] + Print(f) + Print(r)
  {}

  /** Round trip at any offset, inside any surrounding bytes. */
  lemma {:induction false} ParsePrinted(pre: bytes, x: Sexp, post: bytes)
    requires Printable(x)
    ensures Parse(pre + Print(x) + post, |pre|) == Ok((x, |pre| + |Print(x)|))
    decreases x
  {
    hide *;
    match x
    case Atom(b) =>
      ParseAtom(pre, b, post);
    case Pair(f, r) =>
      PrintPair(f, r);
      var data := pre + Print(x) + post;
      var pre1 := pre + [0xFF];
      var pre2 := pre1 + Print(f);
      assert data == pre1 + Print(f) + (Print(r) + post);
      assert data == pre2 + Print(r) + post;
      ParsePrinted(pre1, f, Print(r) + post);
      ParsePrinted(pre2, r, post);
      assert data[|pre|] == 0xFF;
      ParsePair(data, |pre|, f, |pre2|, r, |pre| + |Print(x)|);
  }

  lemma {:induction false} DeserPrinted(x: Sexp)
    requires Printable(x)
    ensures Deser(Print(x)) == Ok(x)
  {
    hide Parse, Print, Printable;
    ParsePrinted([], x, []);
    assert [] + Print(x) + [] == Print(x);
  }

  /** No printed program is a proper prefix of another, so a concatenation of programs
      splits in one way only. */
  lemma {:induction false} PrintPrefixFree(x: Sexp, s: bytes, y: Sexp, t: bytes)
    requires Printable(x) && Printable(y)
    requires Print(x) + s == Print(y) + t
    ensures x == y && s == t
  {
    hide *;
    ParsePrinted([], x, s);
    ParsePrinted([], y, t);
    assert [] + Print(x) + s == Print(x) + s;
    assert [] + Print(y) + t == Print(y) + t;
    assert s == (Print(x) + s)[|Print(x)|..];
  }

  // ----- the printed form is the shortest -----

  /** An atom is printed in the fewest bytes that read as it. */
  /** The number in a one-byte size field. */
  lemma {:induction false} NarrowSize(low: nat)
    requires low < 256
    ensures Value([low], 256) == low
  {
    assert Value([low], 256) == Value([], 256) * 256 + low;
  }

  /** The number in a two-byte size field. */
  lemma {:induction false} WideSize(low: nat, next: byte)
    requires low < 256
    ensures Value([low, next], 256) == low * 256 + next
  {
    assert [low, next][..1] == [low];
    NarrowSize(low);
  }

  lemma {:induction false} NarrowAtom(data: bytes, p: nat, b: bytes, e: nat)
    requires p < |data| && ReadAtom(data, p) == Ok((b, e)) && PrefixWidth(data[p]) == Some(1)
    ensures |b| < 0x40 && data[p] == 0x80 + |b| && e - p == 1 + |b| && data[p..e] == [data[p]] + b
  {
    var c := data[p];
    assert [PrefixLow(c, 1)] + data[p + 1..p + 1] == [c % 0x40];
    NarrowSize(c % 0x40);
    hide Value;
    assert data[p..e] == [c] + data[p + 1..e];
  }

  lemma {:induction false} WideAtom(data: bytes, p: nat, b: bytes, e: nat)
    requires p < |data| && ReadAtom(data, p) == Ok((b, e)) && PrefixWidth(data[p]) == Some(2)
    ensures p + 1 < |data| && e - p == 2 + |b| && data[p..e] == [data[p], data[p + 1]] + b
    ensures data[p] == 0xC0 + |b| / 256 && data[p + 1] == |b| % 256
  {
    var c := data[p];
    var low: nat := c % 0x20;
    assert [PrefixLow(c, 2)] + data[p + 1..p + 2] == [low, data[p + 1]];
    WideSize(low, data[p + 1]);
    hide Value;
    assert data[p..e] == [c, data[p + 1]] + data[p + 2..e];
  }

  lemma {:induction false} VeryWideAtom(data: bytes, p: nat, b: bytes, e: nat, width: nat)
    requires p < |data| && ReadAtom(data, p) == Ok((b, e)) && PrefixWidth(data[p]) == Some(width)
    ensures e - p == (if width == 0 then 1 else width + |b|)
  {
    hide Value;
  }

  /** Whatever size prefix an atom is read behind, the printed one is the shortest. */
  lemma {:induction false} AtomIsShortest(data: bytes, p: nat, b: bytes, e: nat)
    requires p < |data| && ReadAtom(data, p) == Ok((b, e)) && |b| < MAX_ATOM
    ensures |PrintAtom(b)| <= e - p
    ensures |PrintAtom(b)| == e - p ==> PrintAtom(b) == data[p..e]
  {
    var width := PrefixWidth(data[p]).value;
    VeryWideAtom(data, p, b, e, width);
    if width == 0 {
      hide Value;
      assert data[p..e] == [data[p]];
    } else {
      if width == 1 {
        NarrowAtom(data, p, b, e);
      } else if width == 2 {
        WideAtom(data, p, b, e);
      }
      hide ReadAtom, PrefixWidth, Value;
    }
  }

  lemma {:induction false} ParsedIsShortest(data: bytes, p: nat, x: Sexp, e: nat)
    requires Parse(data, p) == Ok((x, e)) && Printable(x)
    ensures p < e <= |data| && |Print(x)| <= e - p
    ensures |Print(x)| == e - p ==> Print(x) == data[p..e]
    decreases x
  {
    hide ReadAtom, PrintAtom;
    match x
    case Atom(b) =>
      AtomIsShortest(data, p, b, e);
    case Pair(f, r) =>
      var q := Parse(data, p + 1).value.1;
      ParsedIsShortest(data, p + 1, f, q);
      ParsedIsShortest(data, q, r, e);
      assert data[p..e] == [data[p]] + data[p + 1..q] + data[q..e];
  }

  /** The printer writes the canonical form: every byte string that reads as `x` is longer than the
      printed form of `x`, or is that form. */
  lemma {:induction false} PrintIsShortest(x: Sexp, data: bytes)
    requires Printable(x) && Deser(data) == Ok(x)
    ensures |Print(x)| <= |data| && (|Print(x)| == |data| ==> Print(x) == data)
  {
    hide Parse, Print;
    ParsedIsShortest(data, 0, x, |data|);
    assert data[0..|data|] == data;
  }

  // ----- integers as atoms -----

  /** Minimal signed big-endian form of a non-negative integer. */
  function IntToBytes(v: nat): bytes
  {
    if v == 0 then []
    else
      var b := MinimalBytes(v);
      if |b| > 0 && b[0] >= 0x80 then [0] + b else b
  }

  /** Signed big-endian value of an atom. */
  function AtomInt(b: bytes): int
  {
    if b == [] then 0
    else if b[0] >= 0x80 then BigEndian(b) - Pow(256, |b|)
    else BigEndian(b)
  }

  lemma LeadingZero(b: bytes)
    ensures BigEndian([0] + b) == BigEndian(b)
  {
    ValueConcat([0], b, 256);
    assert Value([0], 256) == Value([], 256) * 256 + 0;
  }

  /** Printing an integer as an atom loses nothing, so it is injective. */
  lemma AtomIntOfBytes(v: nat)
    ensures AtomInt(IntToBytes(v)) == v
  {
    if v > 0 {
      MinimalHead(v);
      BigEndianMinimal(v);
      LeadingZero(MinimalBytes(v));
    }
  }

  /** And it is the shortest atom with that value: any other is longer. */
  lemma IntIsShortest(v: nat, b: bytes)
    requires AtomInt(b) == v
    ensures |IntToBytes(v)| <= |b| && (|IntToBytes(v)| == |b| ==> IntToBytes(v) == b)
  {
    if v > 0 {
      BigEndianBound(b);
      assert BigEndian(b) == v && b[0] < 0x80;
      MinimalIsShortest(b);
      MinimalHead(v);
      if |IntToBytes(v)| == |b| {
        AtomIntOfBytes(v);
        assert BigEndian(IntToBytes(v)) == v;
        ValueInjective(IntToBytes(v), b, 256);
      }
    }
  }

  lemma {:induction false} IntToBytesLength(v: nat, n: nat)
    requires v < Pow(256, n)
    ensures |IntToBytes(v)| <= n + 1
  {
    ByteLengthLeast(v, n);
  }

  // ----- lists -----

  function ListOf(items: seq<Sexp>): Sexp
  {
    if items == [] then NIL else Pair(items[0], ListOf(items[1..]))
  }

  /** The items of a proper list. */
  function ItemsOf(x: Sexp): Result<seq<Sexp>>
  {
    match x
    case Pair(f, r) =>
      var rest :- ItemsOf(r);
      Ok([f] + rest)
    case Atom(b) => if b == [] then Ok([]) else Err
  }

  lemma {:induction false} ItemsOfList(items: seq<Sexp>)
    ensures ItemsOf(ListOf(items)) == Ok(items)
  {
    if items != [] {
      ItemsOfList(items[1..]);
      assert items == [items[0]] + items[1..];
    }
  }

  /** A proper list is the list of its items. */
  lemma {:induction false} ListOfItems(x: Sexp)
    requires ItemsOf(x).Ok?
    ensures ListOf(ItemsOf(x).value) == x
  {
    match x
    case Pair(f, r) =>
      ListOfItems(r);
      assert ItemsOf(x).value[1..] == ItemsOf(r).value;
    case Atom(_) =>
  }

  lemma {:induction false} ListPrintable(items: seq<Sexp>)
    requires forall i :: 0 <= i < |items| ==> Printable(items[i])
    ensures Printable(ListOf(items))
  {
    if items != [] {
      ListPrintable(items[1..]);
    }
  }
}
