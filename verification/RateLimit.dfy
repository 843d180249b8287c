/** The relay's sliding window: sixty accepted requests in any sixty seconds. */
module RateLimit {

  const LIMIT := 60
  const WINDOW := 60.0

  /** How many of `times` lie in the sixty seconds that end at `now`. */
  ghost function Recent(times: seq<real>, now: real): nat
  {
    if times == [] then 0
    else Recent(times[..|times| - 1], now) + if times[|times| - 1] > now - 60.0 then 1 else 0
  }

  ghost predicate Monotone(times: seq<real>) {
    forall i, j :: 0 <= i < j < |times| ==> times[i] <= times[j]
  }

  /** No more than `LIMIT` entries in any window: entry `i + LIMIT` comes a whole window after entry `i`. */
  ghost predicate Spaced(times: seq<real>) {
    forall i :: 0 <= i && i + LIMIT < |times| ==> times[i] + WINDOW <= times[i + LIMIT]
  }

  lemma {:induction false} NoneRecent(times: seq<real>, now: real)
    requires forall i :: 0 <= i < |times| ==> times[i] <= now - WINDOW
    ensures Recent(times, now) == 0
  {
    if times != [] {
      NoneRecent(times[..|times| - 1], now);
    }
  }

  lemma {:induction false} AllRecent(times: seq<real>, now: real)
    requires forall i :: 0 <= i < |times| ==> times[i] > now - WINDOW
    ensures Recent(times, now) == |times|
  {
    if times != [] {
      AllRecent(times[..|times| - 1], now);
    }
  }

  lemma {:induction false} RecentConcat(a: seq<real>, b: seq<real>, now: real)
    ensures Recent(a + b, now) == Recent(a, now) + Recent(b, now)
    decreases |b|
  {
    if b == [] {
      assert a + b == a;
    } else {
      RecentConcat(a, b[..|b| - 1], now);
      assert (a + b)[..|a + b| - 1] == a + b[..|b| - 1];
    }
  }

  /** `kept` is the end of `all`, and what comes before it has left the window of `last`. */
  ghost predicate EndOf(all: seq<real>, kept: seq<real>, last: real) {
    && |kept| <= |all| && kept == all[|all| - |kept|..]
    && (forall i :: 0 <= i < |all| ==> all[i] <= last)
    && (forall i :: 0 <= i < |all| - |kept| ==> all[i] <= last - WINDOW)
  }

  class Bucket {
    var times: seq<real>
    ghost var accepted: seq<real>
    ghost var last: real

    /** The deque is the end of the history: what was dropped is out of every window from now on. */
    ghost predicate Valid()
      reads this
    {
      Monotone(accepted) && Spaced(accepted) && EndOf(accepted, times, last)
    }

    constructor (now: real)
      ensures Valid() && accepted == [] && last == now
    {
      times := [];
      accepted, last := [], now;
    }

    /** Pops what has left the window. */
    method Prune(now: real)
      requires Valid() && last <= now
      modifies this`times, this`last
      ensures Valid() && last == now && (times != [] ==> times[0] > now - WINDOW)
    {
      hide Monotone, Spaced, EndOf;
      ghost var before := times;
      PrunedKeeps(accepted, times, last, now);
      last := now;
      while times != [] && times[0] <= now - WINDOW
        invariant last == now && Pruned(times, now) == Pruned(before, now)
        decreases |times|
      {
        times := times[1..];
      }
    }

    /** With a clock that does not run backwards, a request is accepted exactly when the whole history
        has fewer than sixty accepts in the window that ends now. */
    method Request(now: real) returns (ok: bool)
      requires Valid() && last <= now
      modifies this
      ensures Valid() && last == now
      ensures ok <==> Recent(old(accepted), now) < 60
      ensures accepted == if ok then old(accepted) + [now] else old(accepted)
    {
      hide Monotone, Spaced, Recent, EndOf;
      Prune(now);
      KeptAreRecent(accepted, times, now);
      if |times| >= LIMIT {
        return false;
      }
      AppendKeeps(accepted, times, now);
      accepted := accepted + [now];
      times := times + [now];
      return true;
    }
  }

  /** What is left of the deque once its old front is gone. */
  function Pruned(times: seq<real>, now: real): seq<real>
  {
    if times == [] || times[0] > now - WINDOW then times else Pruned(times[1..], now)
  }

  lemma {:induction false} PrunedIsEnd(all: seq<real>, kept: seq<real>, now: real)
    requires |kept| <= |all| && kept == all[|all| - |kept|..]
    requires forall i :: 0 <= i < |all| - |kept| ==> all[i] <= now - WINDOW
    ensures var r := Pruned(kept, now);
            && |r| <= |all| && r == all[|all| - |r|..]
            && (forall i :: 0 <= i < |all| - |r| ==> all[i] <= now - WINDOW)
            && (r != [] ==> r[0] > now - WINDOW)
    decreases |kept|
  {
    if kept != [] && kept[0] <= now - WINDOW {
      assert kept[0] == all[|all| - |kept|];
      PrunedIsEnd(all, kept[1..], now);
    }
  }

  lemma {:induction false} PrunedKeeps(all: seq<real>, kept: seq<real>, last: real, now: real)
    requires EndOf(all, kept, last) && last <= now
    ensures var r := Pruned(kept, now);
            EndOf(all, r, now) && (r != [] ==> r[0] > now - WINDOW)
  {
    forall i | 0 <= i < |all|
      ensures all[i] <= now && (i < |all| - |kept| ==> all[i] <= now - WINDOW)
    {
      assert all[i] <= last;
    }
    PrunedIsEnd(all, kept, now);
  }

  lemma {:induction false} KeptAreRecent(all: seq<real>, kept: seq<real>, now: real)
    requires EndOf(all, kept, now) && Monotone(all)
    requires kept != [] ==> kept[0] > now - WINDOW
    ensures Recent(all, now) == |kept|
  {
    var n := |all| - |kept|;
    var dropped := all[..n];
    assert all == dropped + kept;
    NoneRecent(dropped, now);
    forall i | 0 <= i < |kept|
      ensures kept[i] > now - WINDOW
    {
      assert kept[i] == all[n + i] && kept[0] == all[n];
    }
    AllRecent(kept, now);
    RecentConcat(dropped, kept, now);
  }

  lemma AppendKeeps(all: seq<real>, kept: seq<real>, now: real)
    requires EndOf(all, kept, now) && |kept| < LIMIT && Monotone(all) && Spaced(all)
    ensures Monotone(all + [now]) && Spaced(all + [now]) && EndOf(all + [now], kept + [now], now)
  {
    var next := all + [now];
    forall i | 0 <= i && i + LIMIT < |next|
      ensures next[i] + WINDOW <= next[i + LIMIT]
    {
      if i + LIMIT == |all| {
        assert i < |all| - |kept|;
      }
    }
  }

  lemma SpacedApart(times: seq<real>, i: nat, j: nat)
    requires Spaced(times) && Monotone(times) && i + LIMIT <= j < |times|
    ensures times[i] + WINDOW <= times[j]
  {
    var k := i + LIMIT;
    assert k == j || times[k] <= times[j];
  }

  /** What spacing means: any window that holds the entries from `i` to `j` holds at most sixty. */
  lemma AtMostSixty(times: seq<real>, i: nat, j: nat, end: real)
    requires Spaced(times) && Monotone(times) && i <= j < |times|
    requires times[i] > end - 60.0 && times[j] <= end
    ensures j - i + 1 <= 60
  {
    hide Spaced, Monotone;
    if i + LIMIT <= j {
      SpacedApart(times, i, j);
    }
  }
}
