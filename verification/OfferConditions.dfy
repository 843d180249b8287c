/** Spend conditions: building them, quoting them in a standard solution, and reading them back. */
module OfferConditions {
  import opened Wrappers
  import opened Bytes
  import opened Clvm

  const CREATE_COIN := 51
  const RESERVE_FEE := 52
  const ASSERT_PUZZLE_ANNOUNCEMENT := 63

  /** Printing refuses atoms that are too long. */
  function Ser(x: Sexp): Result<bytes>
  {
    if Printable(x) then Ok(Print(x)) else Err
  }

  function CreateCoin(ph: bytes, amount: nat): Sexp
  {
    ListOf([Atom(IntToBytes(CREATE_COIN)), Atom(ph), Atom(IntToBytes(amount))])
  }

  function ReserveFee(fee: nat): Sexp
  {
    ListOf([Atom(IntToBytes(RESERVE_FEE)), Atom(IntToBytes(fee))])
  }

  /** One argument: the announcement id, the hash of puzzle hash and message. */
  function AssertAnnouncement(h: Hash, ph: bytes, message: bytes): Sexp
  {
    ListOf([Atom(IntToBytes(ASSERT_PUZZLE_ANNOUNCEMENT)), Atom(h(ph + message))])
  }

  function Quote(x: Sexp): Sexp { Pair(Atom([1]), x) }

  function StandardSolution(conditions: Sexp): Sexp
  {
    ListOf([NIL, Quote(conditions), NIL])
  }

  /** The conditions of a standard solution; every other shape is refused. */
  function ParseConditions(solution: bytes): Result<seq<Sexp>>
  {
    var x :- Deser(solution);
    var items :- ItemsOf(x);
    if |items| == 3 && items[0] == NIL && items[2] == NIL && items[1].Pair? && items[1].first == Atom([1])
    then ItemsOf(items[1].rest) else Err
  }

  function AtomValue(x: Sexp): Result<int>
  {
    if x.Atom? then Ok(AtomInt(x.b)) else Err
  }

  /** Opcode and arguments of a condition. */
  function ConditionArgs(cond: Sexp): Result<(int, seq<Sexp>)>
  {
    var items :- ItemsOf(cond);
    if items == [] then Err
    else
      var op :- AtomValue(items[0]);
      Ok((op, items[1..]))
  }

  datatype Output = Output(ph: bytes, amount: int)

  /** What one condition adds to the outputs: nothing unless it creates a coin. */
  function OutputsOf(cond: Sexp): Result<seq<Output>>
  {
    var (op, args) :- ConditionArgs(cond);
    if op != CREATE_COIN then Ok([])
    else if |args| < 2 || !args[0].Atom? || |args[0].b| != 32 then Err
    else
      var amount :- AtomValue(args[1]);
      Ok([Output(args[0].b, amount)])
  }

  /** `create_coin_outputs` */
  function CreateCoinOutputs(conds: seq<Sexp>): Result<seq<Output>>
  {
    if conds == [] then Ok([])
    else
      var first :- OutputsOf(conds[0]);
      var rest :- CreateCoinOutputs(conds[1..]);
      Ok(first + rest)
  }

  function AssertedBy(cond: Sexp): Result<seq<bytes>>
  {
    var (op, args) :- ConditionArgs(cond);
    if op != ASSERT_PUZZLE_ANNOUNCEMENT then Ok([])
    else if |args| != 1 || !args[0].Atom? || |args[0].b| != 32 then Err
    else Ok([args[0].b])
  }

  /** `asserted_puzzle_announcements` */
  function AssertedAnnouncements(conds: seq<Sexp>): Result<seq<bytes>>
  {
    if conds == [] then Ok([])
    else
      var first :- AssertedBy(conds[0]);
      var rest :- AssertedAnnouncements(conds[1..]);
      Ok(first + rest)
  }

  // ----- what was built is what is read -----

  lemma {:induction false} ReadBuilt(op: nat, args: seq<Sexp>)
    ensures ConditionArgs(ListOf([Atom(IntToBytes(op))] + args)) == Ok((op, args))
  {
    var items := [Atom(IntToBytes(op))] + args;
    ItemsOfList(items);
    AtomIntOfBytes(op);
    assert items[1..] == args;
  }

  lemma CreateCoinRead(ph: bytes, amount: nat)
    requires |ph| == 32
    ensures OutputsOf(CreateCoin(ph, amount)) == Ok([Output(ph, amount)])
    ensures AssertedBy(CreateCoin(ph, amount)) == Ok([])
  {
    var args := [Atom(ph), Atom(IntToBytes(amount))];
    assert [Atom(IntToBytes(CREATE_COIN))] + args == [Atom(IntToBytes(CREATE_COIN)), Atom(ph), Atom(IntToBytes(amount))];
    ReadBuilt(CREATE_COIN, args);
    AtomIntOfBytes(amount);
  }

  lemma ReserveFeeRead(fee: nat)
    ensures OutputsOf(ReserveFee(fee)) == Ok([]) && AssertedBy(ReserveFee(fee)) == Ok([])
  {
    var args := [Atom(IntToBytes(fee))];
    assert [Atom(IntToBytes(RESERVE_FEE))] + args == [Atom(IntToBytes(RESERVE_FEE)), Atom(IntToBytes(fee))];
    ReadBuilt(RESERVE_FEE, args);
  }

  lemma AnnouncementRead(h: Hash, ph: bytes, message: bytes)
    ensures OutputsOf(AssertAnnouncement(h, ph, message)) == Ok([])
    ensures AssertedBy(AssertAnnouncement(h, ph, message)) == Ok([h(ph + message)])
  {
    var args := [Atom(h(ph + message))];
    assert [Atom(IntToBytes(ASSERT_PUZZLE_ANNOUNCEMENT))] + args
        == [Atom(IntToBytes(ASSERT_PUZZLE_ANNOUNCEMENT)), Atom(h(ph + message))];
    ReadBuilt(ASSERT_PUZZLE_ANNOUNCEMENT, args);
  }

  lemma {:induction false} OutputsConcat(xs: seq<Sexp>, ys: seq<Sexp>, a: seq<Output>, b: seq<Output>)
    requires CreateCoinOutputs(xs) == Ok(a) && CreateCoinOutputs(ys) == Ok(b)
    ensures CreateCoinOutputs(xs + ys) == Ok(a + b)
    decreases |xs|
  {
    hide OutputsOf;
    if xs == [] {
      assert xs + ys == ys && a + b == b;
    } else {
      var first, rest := OutputsOf(xs[0]).value, CreateCoinOutputs(xs[1..]).value;
      OutputsConcat(xs[1..], ys, rest, b);
      assert (xs + ys)[1..] == xs[1..] + ys;
      assert first + (rest + b) == first + rest + b;
    }
  }

  lemma {:induction false} AssertedConcat(xs: seq<Sexp>, ys: seq<Sexp>, a: seq<bytes>, b: seq<bytes>)
    requires AssertedAnnouncements(xs) == Ok(a) && AssertedAnnouncements(ys) == Ok(b)
    ensures AssertedAnnouncements(xs + ys) == Ok(a + b)
    decreases |xs|
  {
    hide AssertedBy;
    if xs == [] {
      assert xs + ys == ys && a + b == b;
    } else {
      var first, rest := AssertedBy(xs[0]).value, AssertedAnnouncements(xs[1..]).value;
      AssertedConcat(xs[1..], ys, rest, b);
      assert (xs + ys)[1..] == xs[1..] + ys;
      assert first + (rest + b) == first + rest + b;
    }
  }

  lemma OneCondition(cond: Sexp, outs: seq<Output>, ids: seq<bytes>)
    requires OutputsOf(cond) == Ok(outs) && AssertedBy(cond) == Ok(ids)
    ensures CreateCoinOutputs([cond]) == Ok(outs) && AssertedAnnouncements([cond]) == Ok(ids)
  {
    assert [cond][1..] == [] && outs + [] == outs && ids + [] == ids;
    assert CreateCoinOutputs([]) == Ok([]) && AssertedAnnouncements([]) == Ok([]);
  }

  lemma SerRead(x: Sexp, b: bytes)
    requires Ser(x) == Ok(b)
    ensures Deser(b) == Ok(x)
  {
    hide Deser, Print, Printable;
    DeserPrinted(x);
  }

  lemma QuotedItems(x: Sexp)
    ensures ItemsOf(StandardSolution(x)) == Ok([NIL, Quote(x), NIL])
  {
    ItemsOfList([NIL, Quote(x), NIL]);
  }

  lemma {:induction false} QuotedConditions(solution: bytes, x: Sexp)
    requires Deser(solution) == Ok(StandardSolution(x)) && ItemsOf(StandardSolution(x)) == Ok([NIL, Quote(x), NIL])
    ensures ParseConditions(solution) == ItemsOf(x)
  {
    hide Deser, ItemsOf, ListOf;
  }

  /** A printed standard solution gives back exactly its conditions. */
  lemma {:induction false} SolutionRead(conds: seq<Sexp>, solution: bytes)
    requires Ser(StandardSolution(ListOf(conds))) == Ok(solution)
    ensures ParseConditions(solution) == Ok(conds)
  {
    hide *;
    var x := ListOf(conds);
    SerRead(StandardSolution(x), solution);
    QuotedItems(x);
    QuotedConditions(solution, x);
    ItemsOfList(conds);
  }

  /** A solution reads as conditions exactly when it is the program (() (q . conditions) ()) of them. */
  lemma {:induction false} StandardExactly(solution: bytes, conds: seq<Sexp>)
    ensures ParseConditions(solution) == Ok(conds) <==>
            Deser(solution) == Ok(ListOf([NIL, Pair(Atom([1]), ListOf(conds)), NIL]))
  {
    hide *;
    var x := ListOf([NIL, Pair(Atom([1]), ListOf(conds)), NIL]);
    QuotedIs(conds);
    if Deser(solution) == Ok(x) {
      QuotedItems(ListOf(conds));
      QuotedConditions(solution, ListOf(conds));
      ItemsOfList(conds);
    }
    if ParseConditions(solution) == Ok(conds) {
      QuotedOnly(solution, conds);
    }
  }

  lemma {:induction false} QuotedIs(conds: seq<Sexp>)
    ensures StandardSolution(ListOf(conds)) == ListOf([NIL, Pair(Atom([1]), ListOf(conds)), NIL])
  {
    hide ListOf;
  }

  lemma {:induction false} QuotedOnly(solution: bytes, conds: seq<Sexp>)
    requires ParseConditions(solution) == Ok(conds)
    ensures Deser(solution) == Ok(ListOf([NIL, Pair(Atom([1]), ListOf(conds)), NIL]))
  {
    hide Deser, ItemsOf, ListOf;
    var x := Deser(solution).value;
    var items := ItemsOf(x).value;
    ListOfItems(x);
    ListOfItems(items[1].rest);
    assert items == [NIL, Pair(Atom([1]), ListOf(conds)), NIL];
  }
}
