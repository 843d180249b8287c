/** The explicit-stack loops that print and read CLVM, proved against `Clvm`.
    A stack is a sequence whose last element is the top. */
module ClvmLoops {
  import opened Wrappers
  import opened Radix
  import opened Bytes
  import opened Clvm

  // ----- the printer -----

  /** What is left to print: the stack from its top down. */
  ghost function PrintStack(stack: seq<Sexp>): Result<bytes>
  {
    if stack == [] then Ok([])
    else
      var top, rest := stack[|stack| - 1], PrintStack(stack[..|stack| - 1]);
      if !Printable(top) || rest.Err? then Err else Ok(Print(top) + rest.value)
  }

  ghost function StackSize(stack: seq<Sexp>): nat
  {
    if stack == [] then 0 else Size(stack[|stack| - 1]) + StackSize(stack[..|stack| - 1])
  }

  ghost function Prepend(out: bytes, rest: Result<bytes>): Result<bytes>
  {
    if rest.Err? then Err else Ok(out + rest.value)
  }

  lemma {:induction false} PrintPair(out: bytes, below: seq<Sexp>, f: Sexp, r: Sexp)
    ensures var stack := below + [r] + [f];
            && Prepend(out + [0xFF], PrintStack(stack)) == Prepend(out, PrintStack(below + [Pair(f, r)]))
            && StackSize(stack) < StackSize(below + [Pair(f, r)])
  {
    var two, three := below + [r], below + [r] + [f];
    assert three[..|three| - 1] == two && two[..|two| - 1] == below;
    var whole := below + [Pair(f, r)];
    assert whole[..|whole| - 1] == below;
    if Printable(f) && Printable(r) && PrintStack(below).Ok? {
      var b := PrintStack(below).value;
      assert out + [0xFF] + (Print(f) + (Print(r) + b)) == out + ([0xFF] + Print(f) + Print(r) + b);
    }
  }

  /** Prints without recursion. It fails exactly when some atom is too long. */
  method Serialize(obj: Sexp) returns (r: Result<bytes>)
    ensures r == if Printable(obj) then Ok(Print(obj)) else Err
  {
    var out: bytes := [];
    var stack := [obj];
    assert stack[..0] == [];
    ghost var goal := Prepend(out, PrintStack(stack));
    assert goal == if Printable(obj) then Ok(Print(obj)) else Err by {
      assert PrintStack([]) == Ok([]);
      assert Printable(obj) ==> [] + (Print(obj) + []) == Print(obj);
    }
    while stack != []
      invariant Prepend(out, PrintStack(stack)) == goal
      decreases StackSize(stack)
    {
      var node := stack[|stack| - 1];
      var below := stack[..|stack| - 1];
      assert stack == below + [node];
      match node {
        case Atom(b) =>
          if |b| >= MAX_ATOM {
            return Err;
          }
          ghost var rest := PrintStack(below);
          assert rest.Ok? ==> out + (PrintAtom(b) + rest.value) == out + PrintAtom(b) + rest.value;
          out := out + PrintAtom(b);
          stack := below;
        case Pair(first, rest) =>
          PrintPair(out, below, first, rest);
          out := out + [0xFF];
          stack := below + [rest] + [first];
      }
    }
    assert out + [] == out;
    return Ok(out);
  }

  // ----- the reader -----

  /** The size field of an atom, one byte after another. */
  method ReadAtomAt(data: bytes, p: nat) returns (r: Result<(bytes, nat)>)
    requires p < |data|
    ensures r == ReadAtom(data, p)
  {
    var b := data[p];
    match PrefixWidth(b) {
      case None =>
        return Err;
      case Some(width) =>
        if width == 0 {
          return Ok(([b], p + 1));
        }
        if p + width > |data| {
          return Err;
        }
        var n: nat := PrefixLow(b, width);
        assert [n] + data[p + 1..p + 1] == [n];
        assert Value([n], 256) == Value([], 256) * 256 + n;
        for i := 1 to width
          invariant n == Value([PrefixLow(b, width)] + data[p + 1..p + i], 256)
        {
          var ds := [PrefixLow(b, width)] + data[p + 1..p + i + 1];
          assert ds[..|ds| - 1] == [PrefixLow(b, width)] + data[p + 1..p + i];
          n := n * 256 + data[p + i];
        }
        if p + width + n > |data| {
          return Err;
        }
        return Ok((data[p + width..p + width + n], p + width + n));
    }
  }

  datatype Op = PARSE | CONS

  /** Runs the work items `ops` from the top down, starting with the parsed values `vals`. */
  ghost function Finish(data: bytes, ops: seq<Op>, vals: seq<Sexp>, p: nat): Result<(seq<Sexp>, nat)>
    decreases |ops|
  {
    if ops == [] then Ok((vals, p))
    else
      var below := ops[..|ops| - 1];
      match ops[|ops| - 1]
      case CONS =>
        if |vals| < 2 then Err
        else Finish(data, below, Consed(vals), p)
      case PARSE =>
        var (x, e) :- Parse(data, p);
        Finish(data, below, vals + [x], e)
  }

  /** Replaces the last two values by their pair. */
  function Consed(vals: seq<Sexp>): seq<Sexp>
    requires |vals| >= 2
  {
    var n := |vals|;
    vals[..n - 2] + [Pair(vals[n - 2], vals[n - 1])]
  }

  /** With `n` values parsed, the work items never take from an empty stack and leave one value. */
  ghost predicate Balanced(ops: seq<Op>, n: nat)
    decreases |ops|
  {
    if ops == [] then n == 1
    else
      var below := ops[..|ops| - 1];
      match ops[|ops| - 1]
      case PARSE => Balanced(below, n + 1)
      case CONS => n >= 2 && Balanced(below, n - 1)
  }

  /** The number of programs still to be read. */
  ghost function Pending(ops: seq<Op>): nat
  {
    if ops == [] then 0
    else Pending(ops[..|ops| - 1]) + if ops[|ops| - 1] == PARSE then 1 else 0
  }

  lemma ExpandPair(data: bytes, below: seq<Op>, vals: seq<Sexp>, p: nat)
    requires p < |data| && data[p] == 0xFF
    ensures var ops := below + [CONS] + [PARSE] + [PARSE];
            && Finish(data, ops, vals, p + 1) == Finish(data, below + [PARSE], vals, p)
            && (forall n: nat :: Balanced(below + [PARSE], n) ==> Balanced(ops, n))
            && Pending(ops) == Pending(below + [PARSE]) + 1
  {
    var o1, o2, o3, o := below + [CONS], below + [CONS] + [PARSE], below + [CONS] + [PARSE] + [PARSE], below + [PARSE];
    assert o1[..|o1| - 1] == below && o2[..|o2| - 1] == o1 && o3[..|o3| - 1] == o2 && o[..|o| - 1] == below;
    assert Pending(o1) == Pending(below) && Pending(o2) == Pending(o1) + 1 && Pending(o3) == Pending(o2) + 1;
    assert Pending(o) == Pending(below) + 1;
    forall n: nat | Balanced(o, n)
      ensures Balanced(o3, n)
    {
      assert Balanced(below, n + 1);
      assert Balanced(o1, n + 2);
      assert Balanced(o2, n + 1);
    }
    if Parse(data, p + 1).Ok? {
      var (f, q) := Parse(data, p + 1).value;
      assert Finish(data, o3, vals, p + 1) == Finish(data, o2, vals + [f], q);
      if Parse(data, q).Ok? {
        var (r, e) := Parse(data, q).value;
        assert Finish(data, o2, vals + [f], q) == Finish(data, o1, vals + [f] + [r], e);
        assert Consed(vals + [f] + [r]) == vals + [Pair(f, r)];
      }
    }
  }

  lemma {:induction false} Start(data: bytes, p: nat)
    ensures Balanced([PARSE], 0)
    ensures Finish(data, [PARSE], [], p) == match Parse(data, p) case Err => Err case Ok(xe) => Ok(([xe.0], xe.1))
  {
    assert [PARSE][..0] == [] && Balanced([], 1);
    if Parse(data, p).Ok? {
      var (x, e) := Parse(data, p).value;
      assert [] + [x] == [x];
      assert Finish(data, [], [x], e) == Ok(([x], e));
    }
  }

  lemma {:induction false} StepCons(data: bytes, below: seq<Op>, vals: seq<Sexp>, p: nat)
    requires Balanced(below + [CONS], |vals|)
    ensures |vals| >= 2 && Balanced(below, |Consed(vals)|)
    ensures Finish(data, below + [CONS], vals, p) == Finish(data, below, Consed(vals), p)
  {
    var ops := below + [CONS];
    assert ops[..|ops| - 1] == below;
  }

  lemma {:induction false} StepParse(data: bytes, below: seq<Op>, vals: seq<Sexp>, p: nat)
    requires Balanced(below + [PARSE], |vals|)
    ensures Balanced(below, |vals| + 1)
    ensures p >= |data| ==> Finish(data, below + [PARSE], vals, p) == Err
    ensures p < |data| && data[p] != 0xFF ==>
              var a := ReadAtom(data, p);
              Finish(data, below + [PARSE], vals, p) ==
              if a.Err? then Err else Finish(data, below, vals + [Atom(a.value.0)], a.value.1)
  {
    hide ReadAtom;
    var ops := below + [PARSE];
    assert ops[..|ops| - 1] == below;
  }

  lemma {:induction false} NoWork(data: bytes, vals: seq<Sexp>, p: nat)
    requires Balanced([], |vals|)
    ensures |vals| == 1 && Finish(data, [], vals, p) == Ok((vals, p))
  {}

  lemma AtomAdvances(data: bytes, p: nat)
    requires p < |data|
    ensures ReadAtom(data, p).Ok? ==> p < ReadAtom(data, p).value.1 <= |data|
  {}

  /** Reads without recursion. The method has no recursion depth to exceed: it returns the
      recursive reading for every input, or fails exactly when that fails. */
  method DeserPartial(data: bytes, pos: int) returns (r: Result<(Sexp, nat)>)
    ensures r == if pos < 0 then Err else Parse(data, pos)
  {
    if pos < 0 {
      return Err;
    }
    hide *;
    var ops: seq<Op> := [PARSE];
    var vals: seq<Sexp> := [];
    var p: nat := pos;
    ghost var goal := Finish(data, ops, vals, p);
    Start(data, p);
    while ops != []
      invariant Finish(data, ops, vals, p) == goal
      invariant Balanced(ops, |vals|)
      invariant pos <= p
      decreases if p <= |data| then |data| - p else 0, |ops|
    {
      var op := ops[|ops| - 1];
      var below := ops[..|ops| - 1];
      assert ops == below + [op];
      ops := below;
      if op == CONS {
        StepCons(data, below, vals, p);
        vals := Consed(vals);
      } else {
        StepParse(data, below, vals, p);
        if p >= |data| {
          return Err;
        }
        if data[p] == 0xFF {
          ExpandPair(data, below, vals, p);
          p := p + 1;
          ops := below + [CONS] + [PARSE] + [PARSE];
        } else {
          var a := ReadAtomAt(data, p);
          if a.Err? {
            return Err;
          }
          AtomAdvances(data, p);
          vals := vals + [Atom(a.value.0)];
          p := a.value.1;
        }
      }
    }
    NoWork(data, vals, p);
    return Ok((vals[0], p));
  }
}
