/** The tree hash of an s-expression. */
module TreeHashing {
  import opened Bytes
  import opened Clvm

  function TreeHash(h: Hash, x: Sexp): Digest
  {
    match x
    case Atom(b) => h([1] + b)
    case Pair(f, r) => h([2] + TreeHash(h, f) + TreeHash(h, r))
  }

  // ----- the loop -----

  /** The values that the remaining work appends, from the top of the work stack down. */
  ghost function Unwind(h: Hash, work: seq<(Sexp, bool)>, vals: seq<Digest>): (out: seq<Digest>)
    requires Enough(work, |vals|)
    decreases |work|
  {
    if work == [] then vals
    else
      var (node, expanded) := work[|work| - 1];
      var below := work[..|work| - 1];
      if node.Pair? && expanded then
        var n := |vals|;
        Unwind(h, below, vals[..n - 2] + [h([2] + vals[n - 2] + vals[n - 1])])
      else
        Unwind(h, below, vals + [TreeHash(h, node)])
  }

  /** The value stack is never popped while empty, and one value remains. */
  ghost predicate Enough(work: seq<(Sexp, bool)>, n: nat)
    decreases |work|
  {
    if work == [] then n == 1
    else
      var (node, expanded) := work[|work| - 1];
      var below := work[..|work| - 1];
      if node.Pair? && expanded then n >= 2 && Enough(below, n - 1) else Enough(below, n + 1)
  }

  ghost function WorkSize(work: seq<(Sexp, bool)>): nat
  {
    if work == [] then 0
    else
      var (node, expanded) := work[|work| - 1];
      WorkSize(work[..|work| - 1]) + if expanded then 1 else 2 * Size(node)
  }

  /** Pushing the two children of a node under the node itself. */
  function Expanded(below: seq<(Sexp, bool)>, f: Sexp, r: Sexp): seq<(Sexp, bool)>
  {
    below + [(Pair(f, r), true)] + [(r, false)] + [(f, false)]
  }

  lemma {:induction false} ExpandedEnough(below: seq<(Sexp, bool)>, f: Sexp, r: Sexp, n: nat)
    requires Enough(below + [(Pair(f, r), false)], n)
    ensures Enough(below, n + 1)
    ensures Enough(below + [(Pair(f, r), true)], n + 2)
    ensures Enough(below + [(Pair(f, r), true)] + [(r, false)], n + 1)
    ensures Enough(Expanded(below, f, r), n)
  {
    var node := Pair(f, r);
    var w0, w1 := below + [(node, false)], below + [(node, true)];
    var w2 := w1 + [(r, false)];
    var w3 := w2 + [(f, false)];
    assert w0[..|w0| - 1] == below && w1[..|w1| - 1] == below && w2[..|w2| - 1] == w1 && w3[..|w3| - 1] == w2;
  }

  lemma {:induction false} ExpandedSize(below: seq<(Sexp, bool)>, f: Sexp, r: Sexp)
    ensures WorkSize(Expanded(below, f, r)) < WorkSize(below + [(Pair(f, r), false)])
  {
    var node := Pair(f, r);
    var w0, w1 := below + [(node, false)], below + [(node, true)];
    var w2 := w1 + [(r, false)];
    var w3 := w2 + [(f, false)];
    assert w0[..|w0| - 1] == below && w1[..|w1| - 1] == below && w2[..|w2| - 1] == w1 && w3[..|w3| - 1] == w2;
    assert WorkSize(w3) == WorkSize(w2) + 2 * Size(f);
    assert WorkSize(w2) == WorkSize(w1) + 2 * Size(r);
  }

  lemma {:induction false} UnwindPush(h: Hash, below: seq<(Sexp, bool)>, node: Sexp, vals: seq<Digest>)
    requires Enough(below, |vals| + 1)
    ensures Enough(below + [(node, false)], |vals|)
    ensures Unwind(h, below + [(node, false)], vals) == Unwind(h, below, vals + [TreeHash(h, node)])
  {
    var w := below + [(node, false)];
    assert w[..|w| - 1] == below;
  }

  lemma {:induction false} UnwindJoin(h: Hash, below: seq<(Sexp, bool)>, f: Sexp, r: Sexp, vals: seq<Digest>)
    requires Enough(below, |vals| + 1)
    ensures var v2 := vals + [TreeHash(h, f)] + [TreeHash(h, r)];
            && Enough(below + [(Pair(f, r), true)], |v2|)
            && Unwind(h, below + [(Pair(f, r), true)], v2) == Unwind(h, below, vals + [TreeHash(h, Pair(f, r))])
  {
    var w := below + [(Pair(f, r), true)];
    assert w[..|w| - 1] == below;
    var v2 := vals + [TreeHash(h, f)] + [TreeHash(h, r)];
    assert v2[..|v2| - 2] == vals;
  }

  lemma {:induction false} ExpandNode(h: Hash, below: seq<(Sexp, bool)>, f: Sexp, r: Sexp, vals: seq<Digest>)
    requires Enough(below + [(Pair(f, r), false)], |vals|)
    ensures Enough(Expanded(below, f, r), |vals|)
    ensures Unwind(h, Expanded(below, f, r), vals) == Unwind(h, below + [(Pair(f, r), false)], vals)
  {
    ExpandedEnough(below, f, r, |vals|);
    var w1 := below + [(Pair(f, r), true)];
    UnwindPush(h, w1 + [(r, false)], f, vals);
    UnwindPush(h, w1, r, vals + [TreeHash(h, f)]);
    UnwindJoin(h, below, f, r, vals);
    UnwindPush(h, below, Pair(f, r), vals);
  }

  /** The post-order walk computes the recursive definition, for every s-expression. */
  method Sha256Tree(h: Hash, obj: Sexp) returns (d: Digest)
    ensures d == TreeHash(h, obj)
  {
    var work := [(obj, false)];
    var vals: seq<Digest> := [];
    assert work[..0] == [];
    assert Enough([], 1);
    assert Unwind(h, work, vals) == Unwind(h, [], [TreeHash(h, obj)]) by {
      assert [] + [TreeHash(h, obj)] == [TreeHash(h, obj)];
    }
    while work != []
      invariant Enough(work, |vals|)
      invariant Unwind(h, work, vals) == [TreeHash(h, obj)]
      decreases WorkSize(work)
    {
      var (node, expanded) := work[|work| - 1];
      var below := work[..|work| - 1];
      assert work == below + [(node, expanded)];
      work := below;
      match node {
        case Atom(b) =>
          vals := vals + [h([1] + b)];
        case Pair(first, rest) =>
          if expanded {
            var n := |vals|;
            vals := vals[..n - 2] + [h([2] + vals[n - 2] + vals[n - 1])];
          } else {
            ExpandNode(h, below, first, rest, vals);
            ExpandedSize(below, first, rest);
            work := Expanded(below, first, rest);
          }
      }
    }
    return vals[0];
  }

  // ----- the hash names the tree -----

  /** The byte string hashed last. */
  function TopInput(h: Hash, x: Sexp): (b: bytes)
    ensures h(b) == TreeHash(h, x)
    ensures |b| > 0 && b[0] == if x.Atom? then 1 else 2
  {
    match x
    case Atom(b) => [1] + b
    case Pair(f, r) => [2] + TreeHash(h, f) + TreeHash(h, r)
  }

  /** Every byte string that is hashed while hashing `x`. */
  function Inputs(h: Hash, x: Sexp): (inputs: set<bytes>)
    ensures TopInput(h, x) in inputs
  {
    match x
    case Atom(_) => {TopInput(h, x)}
    case Pair(f, r) => {TopInput(h, x)} + Inputs(h, f) + Inputs(h, r)
  }

  ghost predicate CollisionFree(h: Hash, inputs: set<bytes>) {
    forall a, b | a in inputs && b in inputs && h(a) == h(b) :: a == b
  }

  /** Two different trees with one hash exhibit a collision of the underlying hash
      among the strings that were actually hashed. */
  lemma {:induction false} TreeHashInjective(h: Hash, x: Sexp, y: Sexp)
    requires CollisionFree(h, Inputs(h, x) + Inputs(h, y))
    requires TreeHash(h, x) == TreeHash(h, y)
    ensures x == y
  {
    var ix, iy := TopInput(h, x), TopInput(h, y);
    assert ix == iy;
    if x.Atom? {
      assert x.b == ix[1..] == y.b;
    } else {
      assert TreeHash(h, x.first) == ix[1..33] == TreeHash(h, y.first);
      assert TreeHash(h, x.rest) == ix[33..] == TreeHash(h, y.rest);
      TreeHashInjective(h, x.first, y.first);
      TreeHashInjective(h, x.rest, y.rest);
    }
  }

  /** The tree hash of a list, written out: every atom behind a 1, every pair behind a 2, first before rest. */
  lemma {:induction false} ListHash(h: Hash, a: Sexp, rest: seq<Sexp>)
    ensures TreeHash(h, ListOf([])) == h([1])
    ensures TreeHash(h, ListOf([a] + rest)) == h([2] + TreeHash(h, a) + TreeHash(h, ListOf(rest)))
    ensures a.Atom? ==> TreeHash(h, ListOf([a])) == h([2] + h([1] + a.b) + h([1]))
  {
    var none: bytes := [];
    assert [1] + none == [1] && ([a] + rest)[1..] == rest && [a][1..] == [];
    assert TreeHash(h, ListOf([])) == h([1]);
    assert TreeHash(h, ListOf([a])) == h([2] + TreeHash(h, a) + TreeHash(h, ListOf([])));
  }
}
