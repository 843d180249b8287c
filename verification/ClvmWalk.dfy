/** The relay's own measure of a CLVM program: a counter of programs still expected,
    and no tree. It is compared here with the reader of `Clvm`. */
module ClvmWalk {
  import opened Wrappers
  import opened Radix
  import opened Bytes
  import opened Clvm
  import opened ClvmLoops

  /** How many 1-bits a byte starts with. */
  function LeadingOnes(b: byte): (n: nat)
    ensures n <= 8
    ensures b < 0x80 <==> n == 0
    decreases b
  {
    if b < 0x80 then 0
    else if b < 0xC0 then 1
    else if b < 0xE0 then 2
    else if b < 0xF0 then 3
    else if b < 0xF8 then 4
    else if b < 0xFC then 5
    else if b < 0xFE then 6
    else if b < 0xFF then 7
    else 8
  }

  /** 0x100 >> n: the low bits that the size prefix's first byte leaves for the size. */
  function LowModulus(n: nat): (m: nat)
    requires n <= 8
    ensures m > 0
  {
    [0x100, 0x80, 0x40, 0x20, 0x10, 0x08, 0x04, 0x02, 0x01][n]
  }

  /** Size prefix and contents of the atom at `pos`. */
  function AtomTotal(buf: bytes, pos: nat): (r: Result<nat>)
    ensures r.Ok? ==> 0 < r.value && pos + r.value <= |buf|
  {
    if pos >= |buf| then Err
    else
      var b0 := buf[pos];
      if b0 == 0xFF || b0 == 0xFE then Err
      else if b0 <= 0x80 then Ok(1)
      else
        var n := LeadingOnes(b0);
        if n > 8 || pos + n > |buf| then Err
        else
          var size := Value([b0 % LowModulus(n)] + buf[pos + 1..pos + n], 256);
          if pos + n + size > |buf| then Err else Ok(n + size)
  }

  /** Where `pending` programs that start at `pos` end. */
  function Walk(buf: bytes, pos: nat, pending: nat): (r: Result<nat>)
    ensures r.Ok? ==> pos <= r.value && (pending > 0 ==> pos < r.value <= |buf|)
    decreases |buf| - pos
  {
    if pending == 0 then Ok(pos)
    else if pos >= |buf| then Err
    else if buf[pos] == 0xFF then Walk(buf, pos + 1, pending + 1)
    else
      var total :- AtomTotal(buf, pos);
      Walk(buf, pos + total, pending - 1)
  }

  /** The loop that shifts the first byte left while its top bit is set. */
  method CountLeadingOnes(b0: byte) returns (n: nat)
    ensures n == LeadingOnes(b0)
  {
    n := 0;
    var b: nat := b0;
    while b >= 0x80
      invariant b < 256
      invariant n + LeadingOnes(b) == LeadingOnes(b0)
      decreases b
    {
      n := n + 1;
      b := b * 2 % 256;
    }
  }

  method ClvmAtomTotal(buf: bytes, pos: nat) returns (r: Result<nat>)
    ensures r == AtomTotal(buf, pos)
  {
    if pos >= |buf| {
      return Err;
    }
    var b0 := buf[pos];
    if b0 == 0xFF || b0 == 0xFE {
      return Err;
    }
    if b0 <= 0x80 {
      return Ok(1);
    }
    var n := CountLeadingOnes(b0);
    if n > 8 || pos + n > |buf| {
      return Err;
    }
    var low := b0 % LowModulus(n);
    var size: nat := low;
    assert [low] + buf[pos + 1..pos + 1] == [low];
    assert Value([low], 256) == Value([], 256) * 256 + low;
    for i := 1 to n
      invariant size == Value([low] + buf[pos + 1..pos + i], 256)
    {
      var ds := [low] + buf[pos + 1..pos + i + 1];
      assert ds[..|ds| - 1] == [low] + buf[pos + 1..pos + i];
      size := size * 256 + buf[pos + i];
    }
    if pos + n + size > |buf| {
      return Err;
    }
    return Ok(n + size);
  }

  /** Length in bytes of the one program at `start`. */
  method ClvmProgramLength(buf: bytes, start: nat) returns (r: Result<nat>)
    ensures r == match Walk(buf, start, 1) case Err => Err case Ok(e) => Ok(e - start)
  {
    var pos := start;
    var pending: nat := 1;
    while pending > 0
      invariant start <= pos
      invariant Walk(buf, pos, pending) == Walk(buf, start, 1)
      decreases if pos <= |buf| then |buf| - pos + 1 else 0, pending
    {
      if pos >= |buf| {
        return Err;
      }
      var b0 := buf[pos];
      if b0 == 0xFF {
        pos := pos + 1;
        pending := pending + 1;
      } else if b0 == 0xFE {
        return Err;
      } else if b0 <= 0x80 {
        pos := pos + 1;
        pending := pending - 1;
      } else {
        var total := ClvmAtomTotal(buf, pos);
        if total.Err? {
          return Err;
        }
        pos := pos + total.value;
        pending := pending - 1;
      }
    }
    return Ok(pos - start);
  }

  // ----- locality -----

  lemma AtomTotalLocal(d1: bytes, p1: nat, d2: bytes, p2: nat)
    requires AtomTotal(d1, p1).Ok?
    requires SameStretch(d1, p1, d2, p2, AtomTotal(d1, p1).value)
    ensures AtomTotal(d2, p2) == AtomTotal(d1, p1)
  {
    var total := AtomTotal(d1, p1).value;
    SameByte(d1, p1, d2, p2, total);
    if d1[p1] > 0x80 {
      var n := LeadingOnes(d1[p1]);
      SameParts(d1, p1, d2, p2, total, 1, n);
    }
  }

  lemma WalkPair(buf: bytes, pos: nat, pending: nat)
    requires pending > 0 && pos < |buf| && buf[pos] == 0xFF
    ensures Walk(buf, pos, pending) == Walk(buf, pos + 1, pending + 1)
  {}

  lemma WalkAtom(buf: bytes, pos: nat, pending: nat)
    requires pending > 0 && pos < |buf| && buf[pos] != 0xFF && AtomTotal(buf, pos).Ok?
    ensures Walk(buf, pos, pending) == Walk(buf, pos + AtomTotal(buf, pos).value, pending - 1)
  {}

  lemma WalkMoves(buf: bytes, pos: nat, pending: nat, e: nat)
    requires pending > 0 && Walk(buf, pos, pending) == Ok(e)
    ensures pos < e <= |buf|
    ensures if buf[pos] == 0xFF then Walk(buf, pos + 1, pending + 1) == Ok(e)
            else
              var total := AtomTotal(buf, pos);
              total.Ok? && 0 < total.value && pos + total.value <= e && Walk(buf, pos + total.value, pending - 1) == Ok(e)
  {
    hide AtomTotal;
  }

  lemma {:induction false} WalkDone(buf: bytes, pos: nat)
    ensures Walk(buf, pos, 0) == Ok(pos)
  {}

  /** The length of a program does not depend on the bytes around it. */
  lemma {:induction false} WalkLocal(d1: bytes, p1: nat, e1: nat, d2: bytes, p2: nat, pending: nat)
    requires p1 <= e1 && Walk(d1, p1, pending) == Ok(e1)
    requires SameStretch(d1, p1, d2, p2, e1 - p1)
    ensures Walk(d2, p2, pending) == Ok(p2 + (e1 - p1))
    decreases |d1| - p1
  {
    hide *;
    if pending == 0 {
      WalkDone(d1, p1);
      WalkDone(d2, p2);
    } else {
      WalkMoves(d1, p1, pending, e1);
      var n := e1 - p1;
      SameByte(d1, p1, d2, p2, n);
      StretchFits(d1, p1, d2, p2, n);
      if d1[p1] == 0xFF {
        SameParts(d1, p1, d2, p2, n, 1, n);
        WalkLocal(d1, p1 + 1, e1, d2, p2 + 1, pending + 1);
        WalkPair(d2, p2, pending);
      } else {
        var step := AtomTotal(d1, p1).value;
        SameParts(d1, p1, d2, p2, n, step, n);
        SameParts(d1, p1, d2, p2, n, 0, step);
        AtomTotalLocal(d1, p1, d2, p2);
        WalkLocal(d1, p1 + step, e1, d2, p2 + step, pending - 1);
        WalkAtom(d2, p2, pending);
      }
    }
  }

  lemma StretchFits(d1: bytes, p1: nat, d2: bytes, p2: nat, n: nat)
    requires SameStretch(d1, p1, d2, p2, n)
    ensures p1 + n <= |d1| && p2 + n <= |d2|
  {}

  // ----- agreement with the reader -----

  /** On the prefixes that both accept, both read the same size field. */
  lemma PrefixesAgree(b: byte)
    requires 0x80 < b < 0xF8
    ensures PrefixWidth(b) == Some(LeadingOnes(b)) && 1 <= LeadingOnes(b) <= 4
    ensures PrefixLow(b, LeadingOnes(b)) == b % LowModulus(LeadingOnes(b))
  {
    if b <= 0xBF {
      assert b % 0x80 == b - 0x80 == b % 0x40;
    } else if b <= 0xDF {
      assert b % 0x40 == b - 0xC0 == b % 0x20;
    } else if b <= 0xEF {
      assert b % 0x20 == b - 0xE0 == b % 0x10;
    } else {
      assert b % 0x10 == b - 0xF0 == b % 0x08;
    }
  }

  lemma AtomsAgree(data: bytes, p: nat)
    requires p < |data| && data[p] != 0xFF
    ensures ReadAtom(data, p).Ok? <==> AtomTotal(data, p).Ok? && !(0xF8 <= data[p] <= 0xFD)
    ensures ReadAtom(data, p).Ok? ==> ReadAtom(data, p).value.1 == p + AtomTotal(data, p).value
  {
    var b := data[p];
    if b == 0x80 {
      assert [PrefixLow(b, 1)] + data[p + 1..p + 1] == [0];
      assert Value([0], 256) == Value([], 256) * 256 + 0;
    } else if 0x80 < b < 0xF8 {
      PrefixesAgree(b);
    }
  }

  /** What the reader accepts, the walker measures the same. */
  lemma {:induction false} WalkFollowsParse(data: bytes, p: nat, pending: nat)
    requires Parse(data, p).Ok?
    ensures Walk(data, p, pending + 1) == Walk(data, Parse(data, p).value.1, pending)
    decreases |data| - p
  {
    hide ReadAtom, AtomTotal, Walk;
    if data[p] == 0xFF {
      var (f, q) := Parse(data, p + 1).value;
      WalkPair(data, p, pending + 1);
      WalkFollowsParse(data, p + 1, pending + 1);
      WalkFollowsParse(data, q, pending);
    } else {
      AtomsAgree(data, p);
      WalkAtom(data, p, pending + 1);
    }
  }

  /** While the reader runs, the walker's counter is the number of PARSE items on its work stack. */
  lemma {:induction false} CounterIsPendingParses(data: bytes, ops: seq<Op>, vals: seq<Sexp>, p: nat)
    requires Finish(data, ops, vals, p).Ok?
    ensures Walk(data, p, Pending(ops)) == Ok(Finish(data, ops, vals, p).value.1)
    decreases |ops|
  {
    if ops != [] {
      var below := ops[..|ops| - 1];
      match ops[|ops| - 1]
      case CONS =>
        CounterIsPendingParses(data, below, Consed(vals), p);
      case PARSE =>
        var (x, e) := Parse(data, p).value;
        CounterIsPendingParses(data, below, vals + [x], e);
        WalkFollowsParse(data, p, Pending(below));
    }
  }

  /** No atom of the `pending` programs at `pos` starts with a size prefix of five or six bytes. */
  predicate NarrowPrefixes(buf: bytes, pos: nat, pending: nat)
    decreases |buf| - pos
  {
    if pending == 0 || pos >= |buf| then true
    else if buf[pos] == 0xFF then NarrowPrefixes(buf, pos + 1, pending + 1)
    else
      && !(0xF8 <= buf[pos] <= 0xFD)
      && (AtomTotal(buf, pos).Ok? ==> NarrowPrefixes(buf, pos + AtomTotal(buf, pos).value, pending - 1))
  }

  lemma {:induction false} ParseFollowsWalk(data: bytes, p: nat, pending: nat)
    requires Walk(data, p, pending + 1).Ok? && NarrowPrefixes(data, p, pending + 1)
    ensures Parse(data, p).Ok?
    ensures NarrowPrefixes(data, Parse(data, p).value.1, pending)
    decreases |data| - p
  {
    if data[p] == 0xFF {
      ParseFollowsWalk(data, p + 1, pending + 1);
      var (f, q) := Parse(data, p + 1).value;
      WalkFollowsParse(data, p + 1, pending + 1);
      ParseFollowsWalk(data, q, pending);
    } else {
      AtomsAgree(data, p);
    }
  }

  lemma {:induction false} ParsedIsNarrow(data: bytes, p: nat, e: nat, pending: nat)
    requires Parse(data, p).Ok? && Parse(data, p).value.1 == e
    requires NarrowPrefixes(data, e, pending)
    ensures NarrowPrefixes(data, p, pending + 1)
    decreases |data| - p
  {
    if data[p] == 0xFF {
      var q := Parse(data, p + 1).value.1;
      ParsedIsNarrow(data, q, e, pending);
      ParsedIsNarrow(data, p + 1, q, pending + 1);
    } else {
      AtomsAgree(data, p);
    }
  }

  /** The two implementations agree exactly on the programs without wide size prefixes,
      and there they agree on the end position. */
  lemma {:induction false} ReaderAndWalkerAgree(data: bytes, p: nat)
    ensures Parse(data, p).Ok? <==> Walk(data, p, 1).Ok? && NarrowPrefixes(data, p, 1)
    ensures Parse(data, p).Ok? ==> Walk(data, p, 1) == Ok(Parse(data, p).value.1)
  {
    if Parse(data, p).Ok? {
      WalkFollowsParse(data, p, 0);
      ParsedIsNarrow(data, p, Parse(data, p).value.1, 0);
    }
    if Walk(data, p, 1).Ok? && NarrowPrefixes(data, p, 1) {
      ParseFollowsWalk(data, p, 0);
    }
  }

  /** They do not agree everywhere: an empty atom behind a five-byte size prefix passes
      the relay's gate and is refused by the wallet's reader. */
  lemma WidePrefixDisagrees()
    ensures Walk([0xF8, 0, 0, 0, 0], 0, 1) == Ok(5)
    ensures Parse([0xF8, 0, 0, 0, 0], 0) == Err
  {
    var buf: bytes := [0xF8, 0, 0, 0, 0];
    var size: seq<nat> := [0, 0, 0, 0, 0];
    assert [buf[0] % LowModulus(LeadingOnes(buf[0]))] + buf[1..5] == size;
    assert size == [0] + [0, 0, 0, 0];
    ZeroValue(size);
    assert AtomTotal(buf, 0) == Ok(5);
    assert Walk(buf, 5, 0) == Ok(5);
  }

  lemma {:induction false} ZeroValue(ds: seq<nat>)
    requires forall i :: 0 <= i < |ds| ==> ds[i] == 0
    ensures Value(ds, 256) == 0
  {
    if ds != [] {
      ZeroValue(ds[..|ds| - 1]);
    }
  }

  /** A printed program passes the relay's gate whole, at any offset. */
  lemma {:induction false} WalkPrinted(pre: bytes, x: Sexp, post: bytes)
    requires Printable(x)
    ensures Walk(pre + Print(x) + post, |pre|, 1) == Ok(|pre| + |Print(x)|)
  {
    ParsePrinted(pre, x, post);
    ReaderAndWalkerAgree(pre + Print(x) + post, |pre|);
  }
}
