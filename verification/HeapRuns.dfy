/** What whole sequences of heap operations guarantee. */
module HeapRuns {
  import opened Wrappers
  import opened RankedTree
  import opened Powers

  datatype Op<T> = PushOp(x: T) | PopOp | RemoveOp(x: T)

  /** One LocHeap call: the tree it leaves and the pointer it returns (None for NULL). */
  function Step<T(==)>(outRanks: Ranking<T>, t: Tree<T>, op: Op<T>): (Tree<T>, Option<T>) {
    match op
    case PushOp(x) => (Push(outRanks, t, x), None)
    case PopOp => if t.Empty? then (t, None) else (Pop(outRanks, t), Some(t.data))
    case RemoveOp(x) =>
      match Remove(outRanks, t, x)
      case Some(t') => (t', Some(x))
      case None => (t, None)
  }

  function Run<T(==)>(outRanks: Ranking<T>, t: Tree<T>, ops: seq<Op<T>>): (Tree<T>, seq<Option<T>>)
    decreases |ops|
  {
    if ops == [] then (t, [])
    else
      var (t1, out) := Step(outRanks, t, ops[0]);
      var (t2, outs) := Run(outRanks, t1, ops[1..]);
      (t2, [out] + outs)
  }

  // ---------- The priority queue a client may rely on ----------

  /** The answers a priority queue holding s may give to op. */
  ghost predicate Allowed<T(!new)>(outRanks: Ranking<T>, s: multiset<T>, op: Op<T>, out: Option<T>) {
    match op
    case PushOp(_) => out == None
    case PopOp =>
      if s == multiset{} then out == None
      else out.Some? && out.value in s && Highest(outRanks, out.value, s)
    case RemoveOp(x) => out == if x in s then Some(x) else None
  }

  /** Its content afterwards. */
  ghost function Next<T>(s: multiset<T>, op: Op<T>, out: Option<T>): multiset<T> {
    match op
    case PushOp(x) => s + multiset{x}
    case _ => if out.Some? then s - multiset{out.value} else s
  }

  ghost predicate QueueRun<T(!new)>(
    outRanks: Ranking<T>, s: multiset<T>, ops: seq<Op<T>>, outs: seq<Option<T>>, s': multiset<T>)
    decreases |ops|
  {
    && |outs| == |ops|
    && (ops == [] ==> s' == s)
    && (ops != [] ==>
          && Allowed(outRanks, s, ops[0], outs[0])
          && QueueRun(outRanks, Next(s, ops[0], outs[0]), ops[1..], outs[1..], s'))
  }

  lemma PushRefines<T(!new)>(outRanks: Ranking<T>, t: Tree<T>, x: T)
    requires Heap(outRanks, t)
    ensures Heap(outRanks, Push(outRanks, t, x))
    ensures Elems(Push(outRanks, t, x)) == Elems(t) + multiset{x}
  {
    PushAdds(outRanks, t, x);
    PushCounts(outRanks, t, x);
    PushKeepsOrder(outRanks, t, x);
  }

  lemma PopRefines<T(!new)>(outRanks: Ranking<T>, t: Tree<T>)
    requires Heap(outRanks, t) && t.Node?
    ensures Heap(outRanks, Pop(outRanks, t))
    ensures Elems(t) == Elems(Pop(outRanks, t)) + multiset{t.data}
    ensures Highest(outRanks, t.data, Elems(t))
  {
    TopIsHighest(outRanks, t);
    PopDropsTop(outRanks, t);
    PopCounts(outRanks, t);
    PopKeepsOrder(outRanks, t);
  }

  lemma RemoveRefines<T(!new)>(outRanks: Ranking<T>, t: Tree<T>, x: T)
    requires Heap(outRanks, t)
    ensures Remove(outRanks, t, x).Some? <==> x in Elems(t)
    ensures var r := Remove(outRanks, t, x);
            r.Some? ==> Heap(outRanks, r.value) && Elems(t) == Elems(r.value) + multiset{x}
  {
    RemoveFinds(outRanks, t, x);
    if Remove(outRanks, t, x).Some? {
      RemoveTakesOne(outRanks, t, x);
      RemoveCounts(outRanks, t, x);
      RemoveKeepsOrder(outRanks, t, x);
    }
  }

  lemma TakeOne<T>(s: multiset<T>, x: T, rest: multiset<T>)
    requires s == rest + multiset{x}
    ensures x in s && s != multiset{} && rest == s - multiset{x}
  {
  }

  lemma StepRefines<T(!new)>(outRanks: Ranking<T>, t: Tree<T>, op: Op<T>)
    requires Heap(outRanks, t)
    ensures var (t', out) := Step(outRanks, t, op);
            && Heap(outRanks, t')
            && Allowed(outRanks, Elems(t), op, out)
            && Elems(t') == Next(Elems(t), op, out)
  {
    match op
    case PushOp(x) => PushRefines(outRanks, t, x);
    case PopOp =>
      if t.Node? {
        PopRefines(outRanks, t);
        TakeOne(Elems(t), t.data, Elems(Pop(outRanks, t)));
      }
    case RemoveOp(x) =>
      RemoveRefines(outRanks, t, x);
      if x in Elems(t) { TakeOne(Elems(t), x, Elems(Remove(outRanks, t, x).value)); }
  }

  /** Any run from a heap answers as a priority queue would, and leaves a heap. */
  lemma {:induction false} RunRefines<T(!new)>(outRanks: Ranking<T>, t: Tree<T>, ops: seq<Op<T>>)
    requires Heap(outRanks, t)
    ensures var (t', outs) := Run(outRanks, t, ops);
            Heap(outRanks, t') && QueueRun(outRanks, Elems(t), ops, outs, Elems(t'))
    decreases |ops|
  {
    if ops != [] {
      StepRefines(outRanks, t, ops[0]);
      RunRefines(outRanks, Step(outRanks, t, ops[0]).0, ops[1..]);
    }
  }

  /** After any run from the empty heap, the checker of the unit tests accepts the tree. */
  lemma RunPassesCheck<T(!new)>(outRanks: Ranking<T>, ops: seq<Op<T>>)
    requires StrictWeakOrder(outRanks)
    ensures CheckNodes(outRanks, Run(outRanks, Empty, ops).0)
  {
    RunRefines(outRanks, Empty, ops);
    CheckNodesDecides(outRanks, Run(outRanks, Empty, ops).0);
  }

  // ---------- Push everything, pop everything ----------

  function PushAll<T>(outRanks: Ranking<T>, t: Tree<T>, xs: seq<T>): Tree<T>
    decreases |xs|
  {
    if xs == [] then t else PushAll(outRanks, Push(outRanks, t, xs[0]), xs[1..])
  }

  ghost function PopAll<T>(outRanks: Ranking<T>, t: Tree<T>): seq<T>
    decreases Count(t)
  {
    if t.Empty? then []
    else
      PopCounts(outRanks, t);
      [t.data] + PopAll(outRanks, Pop(outRanks, t))
  }

  ghost predicate RankSorted<T>(outRanks: Ranking<T>, s: seq<T>) {
    forall i, j :: 0 <= i < j < |s| ==> !outRanks(s[j], s[i])
  }

  lemma {:induction false} PushAllHeap<T(!new)>(outRanks: Ranking<T>, t: Tree<T>, xs: seq<T>)
    requires Heap(outRanks, t)
    ensures Heap(outRanks, PushAll(outRanks, t, xs))
    decreases |xs|
  {
    if xs != [] {
      PushRefines(outRanks, t, xs[0]);
      PushAllHeap(outRanks, Push(outRanks, t, xs[0]), xs[1..]);
    }
  }

  lemma HeadAndTail<T>(before: multiset<T>, xs: seq<T>)
    requires xs != []
    ensures before + multiset{xs[0]} + multiset(xs[1..]) == before + multiset(xs)
  {
    assert xs == [xs[0]] + xs[1..];
  }

  lemma {:induction false} PushAllAdds<T(!new)>(outRanks: Ranking<T>, t: Tree<T>, xs: seq<T>)
    ensures Elems(PushAll(outRanks, t, xs)) == Elems(t) + multiset(xs)
    decreases |xs|
  {
    if xs != [] {
      var x, tail := xs[0], xs[1..];
      HeadAndTail(Elems(t), xs);
      PushAdds(outRanks, t, x);
      PushAllAdds(outRanks, Push(outRanks, t, x), tail);
    }
  }

  lemma {:induction false} PopAllReturnsAll<T(!new)>(outRanks: Ranking<T>, t: Tree<T>)
    ensures multiset(PopAll(outRanks, t)) == Elems(t)
    decreases Count(t)
  {
    if t.Node? {
      PopCounts(outRanks, t);
      PopDropsTop(outRanks, t);
      PopAllReturnsAll(outRanks, Pop(outRanks, t));
    }
  }

  lemma HighestOfSeq<T(!new)>(outRanks: Ranking<T>, x: T, s: multiset<T>, out: seq<T>)
    requires Highest(outRanks, x, s) && multiset(out) <= s
    ensures forall j :: 0 <= j < |out| ==> !outRanks(out[j], x)
  {
    forall j | 0 <= j < |out| ensures !outRanks(out[j], x) {
      assert out[j] in multiset(out);
    }
  }

  lemma {:induction false} PopAllSorts<T(!new)>(outRanks: Ranking<T>, t: Tree<T>)
    requires Heap(outRanks, t)
    ensures RankSorted(outRanks, PopAll(outRanks, t))
    decreases Count(t)
  {
    if t.Node? {
      PopCounts(outRanks, t);
      PopRefines(outRanks, t);
      var left := Pop(outRanks, t);
      PopAllSorts(outRanks, left);
      PopAllReturnsAll(outRanks, left);
      HighestOfSeq(outRanks, t.data, Elems(t), PopAll(outRanks, left));
    }
  }

  /** Pushing any elements and popping until empty returns them sorted by rank. */
  lemma HeapSorts<T(!new)>(outRanks: Ranking<T>, xs: seq<T>)
    requires StrictWeakOrder(outRanks)
    ensures var out := PopAll(outRanks, PushAll(outRanks, Empty, xs));
            RankSorted(outRanks, out) && multiset(out) == multiset(xs)
  {
    PushAllHeap(outRanks, Empty, xs);
    PushAllAdds(outRanks, Empty, xs);
    PopAllSorts(outRanks, PushAll(outRanks, Empty, xs));
    PopAllReturnsAll(outRanks, PushAll(outRanks, Empty, xs));
  }

  // ---------- Balance ----------

  ghost predicate Balanced<T>(t: Tree<T>) {
    t.Node? ==>
      && Count(t.right) <= Count(t.left) <= Count(t.right) + 1
      && Balanced(t.left) && Balanced(t.right)
  }

  ghost function Height<T>(t: Tree<T>): nat {
    if t.Empty? then 0
    else 1 + if Height(t.left) < Height(t.right) then Height(t.right) else Height(t.left)
  }

  lemma {:induction false} PushBalances<T(!new)>(outRanks: Ranking<T>, t: Tree<T>, x: T)
    requires Sized(t) && Balanced(t)
    ensures Balanced(Push(outRanks, t, x))
  {
    if t.Node? {
      var low := if outRanks(x, t.data) then t.data else x;
      PushBalances(outRanks, t.left, low);
      PushBalances(outRanks, t.right, low);
      PushCounts(outRanks, t.left, low);
      PushCounts(outRanks, t.right, low);
      assert Count(t.left) == if t.left.Node? then t.left.size else 0;
      assert Count(t.right) == if t.right.Node? then t.right.size else 0;
    }
  }

  lemma {:induction false} PushAllBalanced<T(!new)>(outRanks: Ranking<T>, t: Tree<T>, xs: seq<T>)
    requires Sized(t) && Balanced(t)
    ensures Balanced(PushAll(outRanks, t, xs))
    ensures Count(PushAll(outRanks, t, xs)) == Count(t) + |xs|
    decreases |xs|
  {
    if xs != [] {
      PushBalances(outRanks, t, xs[0]);
      PushCounts(outRanks, t, xs[0]);
      PushAllBalanced(outRanks, Push(outRanks, t, xs[0]), xs[1..]);
    }
  }

  lemma {:induction false} Pow2Monotone(m: nat, n: nat)
    requires m <= n
    ensures Pow2(m) <= Pow2(n)
  {
    if m < n { Pow2Monotone(m, n - 1); } else if 0 < m { Pow2Monotone(m - 1, n - 1); }
  }

  lemma Pow2Reflects(m: nat, n: nat)
    requires 0 < m && Pow2(m - 1) < Pow2(n)
    ensures m <= n
  {
    if n < m { Pow2Monotone(n, m - 1); }
  }

  /** A balanced tree of n nodes has height h with 2^(h-1) <= n < 2^h. */
  lemma {:induction false} BalancedHeight<T>(t: Tree<T>)
    requires Balanced(t)
    ensures Count(t) < Pow2(Height(t))
    ensures t.Node? ==> Pow2(Height(t) - 1) <= Count(t)
  {
    if t.Node? {
      BalancedHeight(t.left);
      BalancedHeight(t.right);
      var l, r := Height(t.left), Height(t.right);
      if t.right.Node? { Pow2Reflects(r, l); }
      Pow2Monotone(r, l);
      assert Height(t) == l + 1;
      if t.left.Node? { assert Pow2(l) == 2 * Pow2(l - 1); }
    }
  }

  /** n pushes build a tree of the least possible height. */
  lemma PushAllHeight<T(!new)>(outRanks: Ranking<T>, xs: seq<T>)
    requires xs != []
    ensures var h := Height(PushAll(outRanks, Empty, xs));
            0 < h && Pow2(h - 1) <= |xs| < Pow2(h)
  {
    var t: Tree<T> := Empty;
    PushAllBalanced(outRanks, t, xs);
    BalancedHeight(PushAll(outRanks, t, xs));
  }
}
