/** One request in flight for each peer: the connection as a state machine whose steps interleave
    in any order, and the class whose methods are those steps. */
module PeerProtocol {
  import opened Wrappers
  import opened Bytes

  const HANDSHAKE := 1

  datatype Frame = Frame(msgType: nat, id: Option<nat>, data: bytes)

  /** A future is open until it has a result, fails or is cancelled. */
  datatype Future = Open | Result(data: bytes) | Failed | Cancelled

  datatype Pending = Pending(expected: nat, future: nat, sentId: nat)

  /** The holder of the lock: before it has sent, it has no future yet. */
  datatype Holder = Holder(owner: nat, future: Option<nat>)

  datatype State = State(
    wsOpen: bool,
    handshaken: bool,
    nextId: nat,
    pending: Option<Pending>,
    lock: Option<Holder>,
    futures: seq<Future>)
  {
    /** The socket is open and the handshake is done. */
    predicate Connected() { wsOpen && handshaken }
  }

  /** Ids run from 1 to 65535 and start over. */
  function AfterId(n: nat): nat
  {
    var m := (n + 1) % 65536;
    if m == 0 then 1 else m
  }

  // ----- steps -----

  datatype Step =
    | Connect
    | SocketCloses
    | Acquire(owner: nat)
    | Refuse
    | Send(expected: nat)
    | Dispatch(frame: Frame, goodHandshake: bool)
    | Expire
    | Finish
    | ReaderExit
    | Close

  /** A frame answers a request when it has the expected type, and no id or the id that was sent. */
  predicate Answers(f: Frame, p: Pending) {
    f.msgType == p.expected && (f.id == None || f.id == Some(p.sentId))
  }

  predicate IsOpen(s: State, f: nat) { f < |s.futures| && s.futures[f] == Open }

  function Settle(s: State, f: nat, outcome: Future): State
  {
    if IsOpen(s, f) then s.(futures := s.futures[f := outcome]) else s
  }

  /** The reader's handling of one frame. */
  function Dispatched(s: State, f: Frame, goodHandshake: bool): State
  {
    if f.msgType == HANDSHAKE && !s.handshaken then s.(handshaken := goodHandshake)
    else if s.pending.Some? && Answers(f, s.pending.value) then
      Settle(s, s.pending.value.future, Result(f.data)).(pending := None)
    else s
  }

  /** The end of the reader and of the connection: an open request ends with `outcome`. */
  function Dropped(s: State, outcome: Future): State
  {
    if s.pending.Some? && IsOpen(s, s.pending.value.future) then
      Settle(s, s.pending.value.future, outcome).(pending := None)
    else s
  }

  /** Leaving the lock: the request's own entry is cleared if it is still there. */
  function Released(s: State): State
    requires s.lock.Some?
  {
    var mine := s.pending.Some? && s.lock.value.future == Some(s.pending.value.future);
    s.(pending := if mine then None else s.pending, lock := None)
  }

  /** The steps, with the places where the source can be when another task runs. */
  ghost predicate Next(s: State, step: Step, t: State) {
    match step
    case Connect => t == s.(wsOpen := true, handshaken := false)
    case SocketCloses => t == s.(wsOpen := false)
    case Acquire(owner) => s.lock.None? && t == s.(lock := Some(Holder(owner, None)))
    case Refuse => s.lock.Some? && s.lock.value.future.None? && !s.Connected() && t == s.(lock := None)
    case Send(expected) =>
      && s.lock.Some? && s.lock.value.future.None? && s.Connected()
      && var f := |s.futures|;
         t == s.(nextId := AfterId(s.nextId), pending := Some(Pending(expected, f, s.nextId)),
                 lock := Some(s.lock.value.(future := Some(f))), futures := s.futures + [Open])
    case Dispatch(f, good) => t == Dispatched(s, f, good)
    case Expire =>
      && s.lock.Some? && s.lock.value.future.Some?
      && t == Settle(s, s.lock.value.future.value, Cancelled)
    case Finish =>
      && s.lock.Some? && s.lock.value.future.Some?
      && t == Released(s)
    case ReaderExit => t == Dropped(s, Failed)
    case Close => t == Dropped(s.(wsOpen := false), Cancelled)
  }

  predicate Init(s: State) {
    s == State(false, false, 1, None, None, [])
  }

  ghost predicate Run(states: seq<State>, steps: seq<Step>) {
    && |states| == |steps| + 1 && Init(states[0])
    && forall k :: 0 <= k < |steps| ==> Next(states[k], steps[k], states[k + 1])
  }

  // ----- what every run keeps -----

  /** A pending request exists only while its owner holds the lock; ids are in range. */
  predicate Inv(s: State) {
    && 1 <= s.nextId <= 65535
    && (s.pending.Some? ==>
          && s.lock.Some? && s.lock.value.future == Some(s.pending.value.future)
          && s.pending.value.future < |s.futures| && 1 <= s.pending.value.sentId <= 65535)
    && (s.lock.Some? && s.lock.value.future.Some? ==> s.lock.value.future.value < |s.futures|)
  }

  lemma StepKeeps(s: State, step: Step, t: State)
    requires Inv(s) && Next(s, step, t)
    ensures Inv(t) && |s.futures| <= |t.futures|
    ensures forall f :: 0 <= f < |s.futures| && s.futures[f] != Open ==> t.futures[f] == s.futures[f]
  {}

  lemma {:induction false} RunKeeps(states: seq<State>, steps: seq<Step>, k: nat)
    requires Run(states, steps) && k < |states|
    ensures Inv(states[k])
    decreases k
  {
    if k > 0 {
      RunKeeps(states, steps, k - 1);
      assert Next(states[k - 1], steps[k - 1], states[k]);
      StepKeeps(states[k - 1], steps[k - 1], states[k]);
    }
  }

  /** In every run a future that has completed keeps its outcome: it completes at most once. */
  lemma {:induction false} CompletesOnce(states: seq<State>, steps: seq<Step>, i: nat, j: nat, f: nat)
    requires Run(states, steps) && i <= j < |states|
    requires f < |states[i].futures| && states[i].futures[f] != Open
    ensures f < |states[j].futures| && states[j].futures[f] == states[i].futures[f]
    decreases j
  {
    if i < j {
      CompletesOnce(states, steps, i, j - 1, f);
      RunKeeps(states, steps, j - 1);
      assert Next(states[j - 1], steps[j - 1], states[j]);
      StepKeeps(states[j - 1], steps[j - 1], states[j]);
    }
  }

  /** The only step that gives a future a result is the dispatch of a frame of the expected type that
      carries no id or the sent id, while that request is pending; the result is the frame's data. */
  lemma ResultComesFromItsAnswer(states: seq<State>, steps: seq<Step>, k: nat, f: nat)
    requires Run(states, steps) && k < |steps|
    requires IsOpen(states[k], f) && f < |states[k + 1].futures| && states[k + 1].futures[f].Result?
    ensures var p := states[k].pending;
            && steps[k].Dispatch? && p.Some? && p.value.future == f && Answers(steps[k].frame, p.value)
            && states[k + 1].futures[f] == Result(steps[k].frame.data) && states[k + 1].pending == None
            && states[k].lock.Some? && states[k].lock.value.future == Some(f)
  {
    RunKeeps(states, steps, k);
    assert Next(states[k], steps[k], states[k + 1]);
  }

  /** When the lock is free nothing is pending: no frame can resolve anything. */
  lemma NothingPendingWhenFree(states: seq<State>, steps: seq<Step>, k: nat)
    requires Run(states, steps) && k < |states| && states[k].lock.None?
    ensures states[k].pending.None?
  {
    RunKeeps(states, steps, k);
  }

  /** After a timeout the source clears the pending entry without looking whose it is; in every run it
      is the owner's own or already gone, so this is what leaving the lock does anyway. */
  lemma TimeoutClearsItsOwn(states: seq<State>, steps: seq<Step>, k: nat)
    requires Run(states, steps) && k < |states| && states[k].lock.Some? && states[k].lock.value.future.Some?
    ensures Released(states[k]) == states[k].(pending := None, lock := None)
  {
    RunKeeps(states, steps, k);
  }

  // ----- ids -----

  /** The id of request number `n`. */
  function IdOf(n: nat): nat { n % 65535 + 1 }

  lemma IdSteps(n: nat)
    ensures AfterId(IdOf(n)) == IdOf(n + 1)
  {
    var r := n % 65535;
    if r == 65534 {
      assert (n + 1) % 65535 == 0;
    } else {
      assert (n + 1) % 65535 == r + 1;
    }
  }

  function Sent(steps: seq<Step>, k: nat): nat
    requires k <= |steps|
  {
    if k == 0 then 0 else Sent(steps, k - 1) + if steps[k - 1].Send? then 1 else 0
  }

  /** In every run the request number `n` is sent with id `IdOf(n)`. */
  lemma {:induction false} IdsInOrder(states: seq<State>, steps: seq<Step>, k: nat)
    requires Run(states, steps) && k <= |steps|
    ensures states[k].nextId == IdOf(Sent(steps, k))
    ensures |states[k].futures| == Sent(steps, k)
    ensures states[k].pending.Some? ==> states[k].pending.value.sentId == IdOf(states[k].pending.value.future)
    decreases k
  {
    if k > 0 {
      IdsInOrder(states, steps, k - 1);
      assert Next(states[k - 1], steps[k - 1], states[k]);
      IdSteps(Sent(steps, k - 1));
      if !steps[k - 1].Send? {
        IdUnchanged(states[k - 1], steps[k - 1], states[k]);
      }
    }
  }

  lemma IdUnchanged(s: State, step: Step, t: State)
    requires Next(s, step, t) && !step.Send?
    ensures t.nextId == s.nextId && |t.futures| == |s.futures| && (t.pending == s.pending || t.pending == None)
  {}

  lemma IdsDiffer(m: nat, n: nat)
    requires m < n < m + 65535
    ensures IdOf(m) != IdOf(n)
  {
    var q := n / 65535 - m / 65535;
    assert n - m == 65535 * q + (n % 65535 - m % 65535);
  }

  /** A late answer that names an earlier request resolves nothing, until 65535 requests have gone by. */
  lemma LateAnswerIsIgnored(states: seq<State>, steps: seq<Step>, k: nat, m: nat)
    requires Run(states, steps) && k < |steps| && steps[k].Dispatch? && steps[k].frame.id == Some(IdOf(m))
    requires states[k].pending.Some? ==> m < states[k].pending.value.future < m + 65535
    ensures states[k + 1].futures == states[k].futures && states[k + 1].pending == states[k].pending
  {
    IdsInOrder(states, steps, k);
    assert Next(states[k], steps[k], states[k + 1]);
    if states[k].pending.Some? {
      IdsDiffer(m, states[k].pending.value.future);
    }
  }

  // ----- the connection object -----

  class ChiaPeer {
    var wsOpen: bool
    var handshaken: bool
    var nextId: nat
    var pending: Option<Pending>
    var lock: Option<Holder>
    var futures: seq<Future>

    ghost function Now(): State
      reads this
    {
      State(wsOpen, handshaken, nextId, pending, lock, futures)
    }

    constructor ()
      ensures Init(Now())
    {
      wsOpen, handshaken, nextId := false, false, 1;
      pending, lock, futures := None, None, [];
    }

    method Connect()
      modifies this
      ensures Next(old(Now()), Step.Connect, Now())
    {
      wsOpen, handshaken := true, false;
    }

    method SocketCloses()
      modifies this
      ensures Next(old(Now()), Step.SocketCloses, Now())
    {
      wsOpen := false;
    }

    method Acquire(owner: nat) returns (ok: bool)
      modifies this
      ensures ok <==> old(lock).None?
      ensures if ok then Next(old(Now()), Step.Acquire(owner), Now()) else Now() == old(Now())
    {
      ok := lock.None?;
      if ok {
        lock := Some(Holder(owner, None));
      }
    }

    /** The part of `_request` between taking the lock and waiting for the answer. */
    method Begin(expected: nat) returns (id: Option<nat>)
      requires lock.Some? && lock.value.future.None?
      modifies this
      ensures if old(wsOpen && handshaken) then id == Some(old(nextId)) && Next(old(Now()), Send(expected), Now())
              else id == None && Next(old(Now()), Refuse, Now())
    {
      if !wsOpen || !handshaken {
        lock := None;
        return None;
      }
      var msgId := nextId;
      var m := (nextId + 1) % 65536;
      nextId := if m == 0 then 1 else m;
      var f := |futures|;
      futures := futures + [Open];
      pending := Some(Pending(expected, f, msgId));
      lock := Some(lock.value.(future := Some(f)));
      return Some(msgId);
    }

    method Dispatch(frame: Frame, goodHandshake: bool)
      modifies this
      ensures Next(old(Now()), Step.Dispatch(frame, goodHandshake), Now())
    {
      if frame.msgType == HANDSHAKE && !handshaken {
        handshaken := goodHandshake;
        return;
      }
      if pending.Some? && frame.msgType == pending.value.expected
         && (frame.id == None || frame.id == Some(pending.value.sentId)) {
        var f := pending.value.future;
        if f < |futures| && futures[f] == Open {
          futures := futures[f := Result(frame.data)];
        }
        pending := None;
      }
    }

    /** The wait ends without an answer: the future is cancelled, and the owner has yet to notice. */
    method Expire()
      requires lock.Some? && lock.value.future.Some?
      modifies this
      ensures Next(old(Now()), Step.Expire, Now())
    {
      var f := lock.value.future.value;
      if f < |futures| && futures[f] == Open {
        futures := futures[f := Cancelled];
      }
    }

    method Finish()
      requires lock.Some? && lock.value.future.Some?
      modifies this
      ensures Next(old(Now()), Step.Finish, Now())
    {
      if pending.Some? && lock.value.future == Some(pending.value.future) {
        pending := None;
      }
      lock := None;
    }

    method ReaderExit()
      modifies this
      ensures Next(old(Now()), Step.ReaderExit, Now())
    {
      if pending.Some? && pending.value.future < |futures| && futures[pending.value.future] == Open {
        futures := futures[pending.value.future := Failed];
        pending := None;
      }
    }

    method Close()
      modifies this
      ensures Next(old(Now()), Step.Close, Now())
    {
      wsOpen := false;
      if pending.Some? && pending.value.future < |futures| && futures[pending.value.future] == Open {
        futures := futures[pending.value.future := Cancelled];
        pending := None;
      }
    }
  }

  // ----- the manager's cache -----

  datatype CoinState = CoinState(coinId: bytes, spentHeight: Option<nat>, createdHeight: Option<nat>)

  function HeightsOf(cs: CoinState): seq<nat> {
    (if cs.spentHeight.Some? then [cs.spentHeight.value] else [])
    + if cs.createdHeight.Some? then [cs.createdHeight.value] else []
  }

  /** `p` is the greatest of the heights, and None when there is none. */
  predicate IsMax(p: Option<nat>, hs: seq<nat>) {
    if hs == [] then p.None? else p.Some? && p.value in hs && forall h :: h in hs ==> h <= p.value
  }

  /** Each id maps to the last of its states. */
  ghost predicate IsLast(coins: map<bytes, CoinState>, all: seq<CoinState>) {
    && (forall cs :: cs in all ==> cs.coinId in coins)
    && forall id :: id in coins ==>
         exists i: nat :: LastAt(all, id, i) && coins[id] == all[i]
  }

  ghost predicate LastAt(all: seq<CoinState>, id: bytes, i: nat) {
    && i < |all| && all[i].coinId == id
    && forall j :: i < j < |all| ==> all[j].coinId != id
  }

  lemma MaxMore(p: Option<nat>, hs: seq<nat>, h: nat)
    requires IsMax(p, hs)
    ensures IsMax(if p.None? || h > p.value then Some(h) else p, hs + [h])
  {
    var q := if p.None? || h > p.value then Some(h) else p;
    assert h in hs + [h];
    forall x | x in hs + [h]
      ensures x <= q.value
    {
      assert x in hs || x == h;
    }
  }

  lemma LastMore(coins: map<bytes, CoinState>, all: seq<CoinState>, cs: CoinState)
    requires IsLast(coins, all)
    ensures IsLast(coins[cs.coinId := cs], all + [cs])
  {
    var coins', all' := coins[cs.coinId := cs], all + [cs];
    forall x | x in all'
      ensures x.coinId in coins'
    {
      assert x in all || x == cs;
    }
    forall id | id in coins'
      ensures exists i: nat :: LastAt(all', id, i) && coins'[id] == all'[i]
    {
      if id == cs.coinId {
        assert LastAt(all', id, |all|);
      } else {
        var i: nat :| LastAt(all, id, i) && coins[id] == all[i];
        assert LastAt(all', id, i);
      }
    }
  }

  class PeerManager {
    var coins: map<bytes, CoinState>
    var peakHeight: Option<nat>
    ghost var states: seq<CoinState>
    ghost var heights: seq<nat>

    /** The cache is what has been ingested: the last state of each coin, and the greatest height. */
    ghost predicate Valid()
      reads this
    {
      IsLast(coins, states) && IsMax(peakHeight, heights)
    }

    constructor ()
      ensures Valid() && states == [] && heights == []
    {
      coins, peakHeight := map[], None;
      states, heights := [], [];
    }

    method SeeHeight(h: nat)
      requires Valid()
      modifies this`peakHeight, this`heights
      ensures Valid() && heights == old(heights) + [h]
    {
      MaxMore(peakHeight, heights, h);
      if peakHeight.None? || h > peakHeight.value {
        peakHeight := Some(h);
      }
      heights := heights + [h];
    }

    method IngestPeak(height: nat)
      requires Valid()
      modifies this`peakHeight, this`heights
      ensures Valid() && heights == old(heights) + [height]
    {
      SeeHeight(height);
    }

    method IngestOne(cs: CoinState)
      requires Valid()
      modifies this
      ensures Valid() && states == old(states) + [cs] && heights == old(heights) + HeightsOf(cs)
    {
      LastMore(coins, states, cs);
      coins := coins[cs.coinId := cs];
      states := states + [cs];
      hide IsLast, IsMax;
      if cs.spentHeight.Some? {
        SeeHeight(cs.spentHeight.value);
      }
      if cs.createdHeight.Some? {
        SeeHeight(cs.createdHeight.value);
      }
    }

    method IngestCoinStates(more: seq<CoinState>)
      requires Valid()
      modifies this
      ensures Valid() && states == old(states) + more && heights == old(heights) + AllHeights(more)
    {
      hide IsLast, IsMax, HeightsOf;
      assert more[..0] == [];
      for k := 0 to |more|
        invariant Valid() && states == old(states) + more[..k] && heights == old(heights) + AllHeights(more[..k])
      {
        MoreHeights(more, k);
        IngestOne(more[k]);
        assert more[..k + 1] == more[..k] + [more[k]];
      }
      assert more[..|more|] == more;
    }
  }

  function AllHeights(all: seq<CoinState>): seq<nat>
  {
    if all == [] then [] else AllHeights(all[..|all| - 1]) + HeightsOf(all[|all| - 1])
  }

  lemma MoreHeights(all: seq<CoinState>, k: nat)
    requires k < |all|
    ensures AllHeights(all[..k + 1]) == AllHeights(all[..k]) + HeightsOf(all[k])
  {
    assert all[..k + 1][..k] == all[..k];
  }
}
