/** The hand-written allreduce over the ranks of a group (ompi_comm_allreduce_group).

    Rank r receives the partial results of ranks 2r+1 and 2r+2, sends its own partial result
    to rank (r-1)/2, receives the final result from it, and passes that on to its children.
    Every transfer is a rendezvous: it happens in one step, when the sender is at its send
    and the receiver is at the matching receive, so no buffering helps progress. */
module TreeAllreduce {

  /** The program counter of a rank: which of its six communications comes next. */
  datatype Point = RecvLeft | RecvRight | SendUp | RecvDown | SendLeft | SendRight | Done

  datatype Rank<T> = Rank(at: Point, out: T)

  datatype Move =
    | Skip(r: nat)
    | Transfer(sender: nat, receiver: nat)

  function Next(at: Point): Point {
    match at
    case RecvLeft => RecvRight
    case RecvRight => SendUp
    case SendUp => RecvDown
    case RecvDown => SendLeft
    case SendLeft => SendRight
    case SendRight => Done
    case Done => Done
  }

  function Index(at: Point): nat {
    match at
    case RecvLeft => 0
    case RecvRight => 1
    case SendUp => 2
    case RecvDown => 3
    case SendLeft => 4
    case SendRight => 5
    case Done => 6
  }

  function Parent(r: nat): nat
    requires r > 0
  {
    (r - 1) / 2
  }

  /** The other rank of the communication `at`, when the group has one. */
  function Peer(n: nat, r: nat, at: Point): (peer: int)
    ensures peer == -1 || 0 <= peer < n || (at.SendUp? || at.RecvDown?)
  {
    match at
    case RecvLeft => if 2 * r + 1 < n then 2 * r + 1 else -1
    case RecvRight => if 2 * r + 2 < n then 2 * r + 2 else -1
    case SendUp => if r > 0 then Parent(r) else -1
    case RecvDown => if r > 0 then Parent(r) else -1
    case SendLeft => if 2 * r + 1 < n then 2 * r + 1 else -1
    case SendRight => if 2 * r + 2 < n then 2 * r + 2 else -1
    case Done => -1
  }

  predicate Sending(at: Point) {
    at.SendUp? || at.SendLeft? || at.SendRight?
  }

  predicate Receiving(at: Point) {
    at.RecvLeft? || at.RecvRight? || at.RecvDown?
  }

  type Group<T> = seq<Rank<T>>

  ghost predicate Possible<T>(g: Group<T>, m: Move) {
    match m
    case Skip(r) => r < |g| && !g[r].at.Done? && Peer(|g|, r, g[r].at) == -1
    case Transfer(s, r) =>
      && s < |g| && r < |g| && s != r
      && Sending(g[s].at) && Peer(|g|, s, g[s].at) == r
      && Receiving(g[r].at) && Peer(|g|, r, g[r].at) == s
  }

  /** A receive on the way up combines, a receive on the way down overwrites. */
  function Take<T>(op: (T, T) -> T, receiver: Rank<T>, value: T): Rank<T> {
    Rank(Next(receiver.at), if receiver.at.RecvDown? then value else op(value, receiver.out))
  }

  ghost function Perform<T>(op: (T, T) -> T, g: Group<T>, m: Move): Group<T>
    requires Possible(g, m)
  {
    match m
    case Skip(r) => g[r := g[r].(at := Next(g[r].at))]
    case Transfer(s, r) =>
      g[s := g[s].(at := Next(g[s].at))][r := Take(op, g[r], g[s].out)]
  }

  ghost predicate Begins<T>(ins: seq<T>, g: Group<T>) {
    |g| == |ins| > 0 && forall r :: 0 <= r < |g| ==> g[r] == Rank(RecvLeft, ins[r])
  }

  ghost predicate IsExecution<T>(op: (T, T) -> T, ex: seq<Group<T>>) {
    |ex| > 0 && forall k :: 0 < k < |ex| ==> Moved(op, ex[k - 1], ex[k])
  }

  ghost predicate Moved<T>(op: (T, T) -> T, g: Group<T>, g2: Group<T>) {
    exists m :: Possible(g, m) && g2 == Perform(op, g, m)
  }

  ghost predicate Stuck<T>(g: Group<T>) {
    forall m :: !Possible(g, m)
  }

  // ---------------------------------------------------------------------------
  // What is computed
  // ---------------------------------------------------------------------------

  ghost predicate Swaps<T>(op: (T, T) -> T, a: T, b: T) {
    op(a, b) == op(b, a)
  }

  ghost predicate Regroups<T>(op: (T, T) -> T, a: T, b: T, c: T) {
    op(a, op(b, c)) == op(op(a, b), c)
  }

  /** The operation is commutative and associative. */
  ghost predicate Commutes<T(!new)>(op: (T, T) -> T) {
    && (forall a, b :: Swaps(op, a, b))
    && (forall a, b, c :: Regroups(op, a, b, c))
  }

  /** The reduction of all inputs in rank order, each counted once. */
  function Reduction<T>(op: (T, T) -> T, xs: seq<T>): T
    requires |xs| > 0
  {
    if |xs| == 1 then xs[0] else op(xs[0], Reduction(op, xs[1..]))
  }

  /** What rank r holds after its first, and after its second, receive on the way up. */
  function AfterLeft<T>(op: (T, T) -> T, ins: seq<T>, r: nat): T
    requires r < |ins|
    decreases |ins| - r, 0
  {
    if 2 * r + 1 < |ins| then op(Subtree(op, ins, 2 * r + 1), ins[r]) else ins[r]
  }

  function Subtree<T>(op: (T, T) -> T, ins: seq<T>, r: nat): T
    requires r < |ins|
    decreases |ins| - r, 1
  {
    if 2 * r + 2 < |ins| then op(Subtree(op, ins, 2 * r + 2), AfterLeft(op, ins, r)) else AfterLeft(op, ins, r)
  }

  /** The subtree results of ranks lo..hi-1. */
  function Frontier<T>(op: (T, T) -> T, ins: seq<T>, lo: nat, hi: nat): seq<T>
    requires lo <= hi <= |ins|
  {
    seq(hi - lo, i requires 0 <= i < hi - lo => Subtree(op, ins, lo + i))
  }

  lemma {:induction false} ReductionAppend<T(!new)>(op: (T, T) -> T, xs: seq<T>, y: T)
    requires |xs| > 0 && Commutes(op)
    ensures Reduction(op, xs + [y]) == op(y, Reduction(op, xs))
  {
    if |xs| > 1 {
      var tail := Reduction(op, xs[1..]);
      ReductionAppend(op, xs[1..], y);
      assert (xs + [y])[1..] == xs[1..] + [y];
      assert Regroups(op, xs[0], y, tail) && Regroups(op, y, xs[0], tail) && Swaps(op, xs[0], y);
    } else {
      assert (xs + [y])[1..] == [y];
      assert Swaps(op, xs[0], y);
    }
  }

  function Least(a: nat, b: nat): nat {
    if a < b then a else b
  }

  lemma FrontierFirst<T>(op: (T, T) -> T, ins: seq<T>, lo: nat, hi: nat)
    requires lo < hi <= |ins|
    ensures Frontier(op, ins, lo, hi) == [Subtree(op, ins, lo)] + Frontier(op, ins, lo + 1, hi)
  {
  }

  lemma FrontierLast<T>(op: (T, T) -> T, ins: seq<T>, lo: nat, hi: nat)
    requires lo <= hi < |ins|
    ensures Frontier(op, ins, lo, hi + 1) == Frontier(op, ins, lo, hi) + [Subtree(op, ins, hi)]
  {
  }

  /** Replacing rank k's subtree by its input and its children's subtrees. */
  lemma FrontierStep<T(!new)>(op: (T, T) -> T, ins: seq<T>, k: nat)
    requires k + 1 < |ins| && Commutes(op)
    ensures Reduction(op, Frontier(op, ins, k, Least(2 * k + 1, |ins|))) ==
            op(ins[k], Reduction(op, Frontier(op, ins, k + 1, Least(2 * k + 3, |ins|))))
  {
    var n := |ins|;
    var rest := Frontier(op, ins, k + 1, Least(2 * k + 1, n));
    FrontierFirst(op, ins, k, Least(2 * k + 1, n));
    if 2 * k + 1 >= n {
      assert ([ins[k]] + rest)[1..] == rest;
    } else {
      FrontierLast(op, ins, k + 1, 2 * k + 1);
      if 2 * k + 2 >= n {
        OneChild(op, rest, Subtree(op, ins, 2 * k + 1), ins[k]);
      } else {
        FrontierLast(op, ins, k + 1, 2 * k + 2);
        TwoChildren(op, rest, Subtree(op, ins, 2 * k + 1), Subtree(op, ins, 2 * k + 2), ins[k]);
      }
    }
  }

  /** The subtrees rooted at k..2k together hold the inputs of k..n-1. */
  lemma {:induction false} FrontierHoldsTail<T(!new)>(op: (T, T) -> T, ins: seq<T>, k: nat)
    requires k < |ins| && Commutes(op)
    ensures Reduction(op, Frontier(op, ins, k, Least(2 * k + 1, |ins|))) == Reduction(op, ins[k..])
    decreases |ins| - k
  {
    if k + 1 == |ins| {
      FrontierFirst(op, ins, k, |ins|);
      assert Frontier(op, ins, k, |ins|) == [ins[k]] && ins[k..] == [ins[k]];
    } else {
      FrontierHoldsTail(op, ins, k + 1);
      FrontierStep(op, ins, k);
      assert ins[k..][1..] == ins[k + 1..];
    }
  }

  lemma OneChild<T(!new)>(op: (T, T) -> T, rest: seq<T>, left: T, own: T)
    requires Commutes(op)
    ensures Reduction(op, [op(left, own)] + rest) == op(own, Reduction(op, rest + [left]))
  {
    assert Swaps(op, left, own);
    if rest == [] {
      assert [op(left, own)] + rest == [op(left, own)] && rest + [left] == [left];
    } else {
      var r := Reduction(op, rest);
      ReductionAppend(op, rest, left);
      assert ([op(left, own)] + rest)[1..] == rest;
      assert Regroups(op, own, left, r);
    }
  }

  lemma TwoChildren<T(!new)>(op: (T, T) -> T, rest: seq<T>, left: T, right: T, own: T)
    requires Commutes(op)
    ensures Reduction(op, [op(right, op(left, own))] + rest) == op(own, Reduction(op, rest + [left] + [right]))
  {
    var l := op(left, own);
    ReductionAppend(op, rest + [left], right);
    OneChild(op, rest, left, own);
    var t := Reduction(op, rest + [left]);
    if rest == [] {
      assert [op(right, l)] + rest == [op(right, l)] && [l] + rest == [l];
    } else {
      var r := Reduction(op, rest);
      assert ([op(right, l)] + rest)[1..] == rest && ([l] + rest)[1..] == rest;
      assert Regroups(op, right, l, r);
    }
    assert Regroups(op, right, own, t) && Regroups(op, own, right, t) && Swaps(op, right, own);
  }

  /** The root's subtree is the whole group. */
  lemma RootHoldsAll<T(!new)>(op: (T, T) -> T, ins: seq<T>)
    requires |ins| > 0 && Commutes(op)
    ensures Subtree(op, ins, 0) == Reduction(op, ins)
  {
    FrontierHoldsTail(op, ins, 0);
    assert ins[0..] == ins;
    assert Frontier(op, ins, 0, 1) == [Subtree(op, ins, 0)];
  }

  // ---------------------------------------------------------------------------
  // Invariant, progress, termination
  // ---------------------------------------------------------------------------

  ghost predicate Value<T>(op: (T, T) -> T, ins: seq<T>, g: Group<T>, r: nat)
    requires |g| == |ins| && r < |g|
  {
    g[r].out == match g[r].at
                case RecvLeft => ins[r]
                case RecvRight => AfterLeft(op, ins, r)
                case SendUp => Subtree(op, ins, r)
                case RecvDown => Subtree(op, ins, r)
                case _ => Subtree(op, ins, 0)
  }

  /** How far a child is compared with its parent. */
  ghost predicate InStep<T>(g: Group<T>, r: nat)
    requires r < |g|
  {
    && (2 * r + 1 < |g| ==>
          && (Index(g[2 * r + 1].at) >= 3 <==> Index(g[r].at) >= 1)
          && (Index(g[2 * r + 1].at) >= 4 <==> Index(g[r].at) >= 5))
    && (2 * r + 2 < |g| ==>
          && (Index(g[2 * r + 2].at) >= 3 <==> Index(g[r].at) >= 2)
          && (Index(g[2 * r + 2].at) >= 4 <==> Index(g[r].at) >= 6))
  }

  ghost predicate Inv<T>(op: (T, T) -> T, ins: seq<T>, g: Group<T>) {
    && |g| == |ins| > 0
    && (forall r :: 0 <= r < |g| ==> Value(op, ins, g, r))
    && (forall r :: 0 <= r < |g| ==> InStep(g, r))
  }

  lemma SkipKeepsInv<T>(op: (T, T) -> T, ins: seq<T>, g: Group<T>, r: nat)
    requires Inv(op, ins, g) && Possible(g, Skip(r))
    ensures Inv(op, ins, Perform(op, g, Skip(r)))
  {
    var g2 := Perform(op, g, Skip(r));
    assert Value(op, ins, g, r) && InStep(g, r);
    assert Value(op, ins, g2, r);
    forall q | 0 <= q < |g|
      ensures InStep(g2, q)
    {
      assert InStep(g, q);
    }
    forall q | 0 <= q < |g|
      ensures Value(op, ins, g2, q)
    {
      assert Value(op, ins, g, q);
    }
  }

  lemma TransferKeepsInv<T>(op: (T, T) -> T, ins: seq<T>, g: Group<T>, s: nat, r: nat)
    requires Inv(op, ins, g) && Possible(g, Transfer(s, r))
    ensures Inv(op, ins, Perform(op, g, Transfer(s, r)))
  {
    var g2 := Perform(op, g, Transfer(s, r));
    assert Value(op, ins, g, s) && Value(op, ins, g, r);
    forall q | 0 <= q < |g|
      ensures InStep(g2, q)
    {
      assert InStep(g, q) && InStep(g, s) && InStep(g, r);
    }
    forall q | 0 <= q < |g|
      ensures Value(op, ins, g2, q)
    {
      assert Value(op, ins, g, q);
    }
  }

  /** No deadlock: while some rank is not done, some move is possible. */
  lemma NeverStuck<T>(op: (T, T) -> T, ins: seq<T>, g: Group<T>)
    requires Inv(op, ins, g) && Stuck(g)
    ensures forall r :: 0 <= r < |g| ==> g[r].at.Done?
  {
    forall r | 0 <= r < |g|
      ensures Index(g[r].at) >= 2
    {
      ReceivesFinish(op, ins, g, r);
    }
    forall r | 0 <= r < |g|
      ensures Index(g[r].at) >= 3
    {
      assert !Possible(g, Skip(r));
      if r > 0 {
        assert InStep(g, Parent(r));
      }
    }
    forall r | 0 <= r < |g|
      ensures g[r].at.Done?
    {
      BroadcastFinishes(op, ins, g, r);
    }
  }

  lemma {:induction false} ReceivesFinish<T>(op: (T, T) -> T, ins: seq<T>, g: Group<T>, r: nat)
    requires Inv(op, ins, g) && Stuck(g) && r < |g|
    ensures Index(g[r].at) >= 2
    decreases |g| - r
  {
    assert !Possible(g, Skip(r)) && InStep(g, r);
    if 2 * r + 1 < |g| {
      ReceivesFinish(op, ins, g, 2 * r + 1);
      assert !Possible(g, Transfer(2 * r + 1, r));
    }
    if 2 * r + 2 < |g| {
      ReceivesFinish(op, ins, g, 2 * r + 2);
      assert !Possible(g, Transfer(2 * r + 2, r));
    }
  }

  lemma {:induction false} BroadcastFinishes<T>(op: (T, T) -> T, ins: seq<T>, g: Group<T>, r: nat)
    requires Inv(op, ins, g) && Stuck(g) && r < |g|
    requires forall q :: 0 <= q < |g| ==> Index(g[q].at) >= 3
    ensures g[r].at.Done?
  {
    assert !Possible(g, Skip(r)) && InStep(g, r);
    if r > 0 {
      BroadcastFinishes(op, ins, g, Parent(r));
      assert InStep(g, Parent(r));
    }
    assert Index(g[r].at) >= 4;
    assert 2 * r + 1 < |g| ==> !Possible(g, Transfer(r, 2 * r + 1));
    assert 2 * r + 2 < |g| ==> !Possible(g, Transfer(r, 2 * r + 2));
  }

  function Remaining<T>(g: Group<T>): nat {
    if g == [] then 0 else 6 - Index(g[0].at) + Remaining(g[1..])
  }

  lemma {:induction false} RemainingUpdate<T>(g: Group<T>, r: nat, moved: Rank<T>)
    requires r < |g|
    ensures Remaining(g[r := moved]) == Remaining(g) + Index(g[r].at) - Index(moved.at)
  {
    if r == 0 {
      assert g[0 := moved][1..] == g[1..];
    } else {
      RemainingUpdate(g[1..], r - 1, moved);
      assert g[r := moved][1..] == g[1..][r - 1 := moved];
    }
  }

  lemma MoveKeepsInv<T>(op: (T, T) -> T, ins: seq<T>, g: Group<T>, g2: Group<T>)
    requires Inv(op, ins, g) && Moved(op, g, g2)
    ensures Inv(op, ins, g2) && Remaining(g2) < Remaining(g)
  {
    var m :| Possible(g, m) && g2 == Perform(op, g, m);
    match m
    case Skip(r) =>
      SkipKeepsInv(op, ins, g, r);
      RemainingUpdate(g, r, g[r].(at := Next(g[r].at)));
    case Transfer(s, r) =>
      TransferKeepsInv(op, ins, g, s, r);
      var sent := g[s := g[s].(at := Next(g[s].at))];
      RemainingUpdate(g, s, g[s].(at := Next(g[s].at)));
      RemainingUpdate(sent, r, Take(op, g[r], g[s].out));
  }

  lemma {:induction false} ExecutionInv<T>(op: (T, T) -> T, ins: seq<T>, ex: seq<Group<T>>)
    requires IsExecution(op, ex) && Begins(ins, ex[0])
    ensures Inv(op, ins, ex[|ex| - 1])
    ensures Remaining(ex[|ex| - 1]) + |ex| - 1 <= Remaining(ex[0])
    decreases |ex|
  {
    var n := |ex| - 1;
    if n > 0 {
      ExecutionInv(op, ins, ex[..n]);
      assert Moved(op, ex[n - 1], ex[n]);
      MoveKeepsInv(op, ins, ex[n - 1], ex[n]);
    }
  }

  lemma {:induction false} RemainingBound<T>(g: Group<T>)
    ensures Remaining(g) <= 6 * |g|
  {
    if g != [] {
      RemainingBound(g[1..]);
    }
  }

  ghost predicate EveryoneHas<T>(g: Group<T>, result: T) {
    forall r :: 0 <= r < |g| ==> g[r] == Rank(Done, result)
  }

  /** For every group size and every associative and commutative operation, every execution
      is finite, and one that cannot go on has left the reduction of all inputs, each counted
      once, at every rank. */
  lemma AllreduceCorrect<T(!new)>(op: (T, T) -> T, ins: seq<T>, ex: seq<Group<T>>)
    requires IsExecution(op, ex) && Begins(ins, ex[0]) && Commutes(op)
    ensures |ex| <= 6 * |ins| + 1
    ensures Stuck(ex[|ex| - 1]) ==> |ex[|ex| - 1]| == |ins| && EveryoneHas(ex[|ex| - 1], Reduction(op, ins))
  {
    ExecutionInv(op, ins, ex);
    RemainingBound(ex[0]);
    var g := ex[|ex| - 1];
    if Stuck(g) {
      NeverStuck(op, ins, g);
      RootHoldsAll(op, ins);
      forall r | 0 <= r < |g|
        ensures g[r] == Rank(Done, Reduction(op, ins))
      {
        assert Value(op, ins, g, r);
      }
    }
  }
}
