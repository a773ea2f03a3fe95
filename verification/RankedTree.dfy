/** The tree that gps/utils/LocHeap.cpp keeps, as a value, and what its operations do to it.
  * The pointer version in LocHeap.dfy is proved equal to these functions. */
module RankedTree {
  import opened Wrappers

  /** `outRanks` of LocRankable, on the addresses of the stored objects. */
  type Ranking<!T> = (T, T) -> bool

  /** `ranks() > 0` of a comparison: what the heap needs of its client. */
  ghost predicate StrictWeakOrder<T(!new)>(outRanks: Ranking<T>) {
    && (forall a, b :: outRanks(a, b) ==> !outRanks(b, a))
    && (forall a, b, c {:trigger outRanks(a, b), outRanks(b, c), outRanks(a, c)} ::
          outRanks(a, c) ==> outRanks(a, b) || outRanks(b, c))
  }

  datatype Tree<T> = Empty | Node(size: int, data: T, left: Tree<T>, right: Tree<T>)

  function Leaf<T>(x: T): Tree<T> { Node(1, x, Empty, Empty) }

  ghost function Count<T>(t: Tree<T>): nat {
    if t.Empty? then 0 else 1 + Count(t.left) + Count(t.right)
  }

  /** The lower ranked of the new element and the top sinks. */
  function Push<T>(outRanks: Ranking<T>, t: Tree<T>, x: T): (r: Tree<T>)
    ensures r.Node?
    decreases Count(t), 1
  {
    if t.Empty? then Leaf(x)
    else if outRanks(x, t.data) then Sink(outRanks, t.(data := x), t.data)
    else Sink(outRanks, t, x)
  }

  /** It goes to the smaller subtree. */
  function Sink<T>(outRanks: Ranking<T>, t: Tree<T>, low: T): (r: Tree<T>)
    requires t.Node?
    ensures r.Node? && r.data == t.data
    decreases Count(t), 0
  {
    var Node(size, data, left, right) := t;
    if left.Empty? || (right.Node? && left.size <= right.size)
    then Node(size + 1, data, Push(outRanks, left, low), right)
    else Node(size + 1, data, left, Push(outRanks, right, low))
  }

  /** True when the left child replaces the top. */
  predicate TakeLeft<T>(outRanks: Ranking<T>, left: Tree<T>, right: Tree<T>)
    requires left.Node? || right.Node?
  {
    left.Node? && (right.Empty? || outRanks(left.data, right.data))
  }

  /** Drops the top; its place is taken by the higher ranked child, down to a leaf. */
  function Pop<T>(outRanks: Ranking<T>, t: Tree<T>): Tree<T>
    requires t.Node?
  {
    var Node(size, _, left, right) := t;
    if left.Empty? && right.Empty? then Empty
    else if TakeLeft(outRanks, left, right) then Node(size - 1, left.data, Pop(outRanks, left), right)
    else Node(size - 1, right.data, left, Pop(outRanks, right))
  }

  /** The tree without one occurrence of x; None when the pruned search does not find x. */
  function Remove<T(==)>(outRanks: Ranking<T>, t: Tree<T>, x: T): Option<Tree<T>> {
    match t
    case Empty => None
    case Node(size, data, left, right) =>
      if x == data then Some(Pop(outRanks, t))
      else if outRanks(x, data) then None
      else
        match Remove(outRanks, left, x)
        case Some(l) => Some(Node(size - 1, data, l, right))
        case None =>
          match Remove(outRanks, right, x)
          case Some(r) => Some(Node(size - 1, data, left, r))
          case None => None
  }

  /** `checkNodes`, computed from the stored sizes as the source does. */
  predicate CheckNodes<T>(outRanks: Ranking<T>, t: Tree<T>) {
    t.Empty? ||
    (&& (t.left.Node? ==> !outRanks(t.left.data, t.data) && CheckNodes(outRanks, t.left))
     && (t.right.Node? ==> !outRanks(t.right.data, t.data) && CheckNodes(outRanks, t.right))
     && t.size - (if t.left.Node? then t.left.size else 0)
               - (if t.right.Node? then t.right.size else 0) == 1)
  }

  // ---------- What a tree means ----------

  ghost function Elems<T>(t: Tree<T>): multiset<T> {
    match t
    case Empty => multiset{}
    case Node(_, data, left, right) => multiset{data} + Elems(left) + Elems(right)
  }

  /** Every stored size is the number of nodes of its subtree. */
  ghost predicate Sized<T>(t: Tree<T>) {
    t.Node? ==> t.size == Count(t) && Sized(t.left) && Sized(t.right)
  }

  /** No node outranks its parent. */
  ghost predicate Ordered<T>(outRanks: Ranking<T>, t: Tree<T>) {
    t.Node? ==>
      && (t.left.Node? ==> !outRanks(t.left.data, t.data))
      && (t.right.Node? ==> !outRanks(t.right.data, t.data))
      && Ordered(outRanks, t.left) && Ordered(outRanks, t.right)
  }

  ghost predicate Heap<T(!new)>(outRanks: Ranking<T>, t: Tree<T>) {
    StrictWeakOrder(outRanks) && Sized(t) && Ordered(outRanks, t)
  }

  /** Nothing in s outranks x. */
  ghost predicate Highest<T(!new)>(outRanks: Ranking<T>, x: T, s: multiset<T>) {
    forall y :: y in s ==> !outRanks(y, x)
  }

  lemma {:induction false} CountIsCardinality<T>(t: Tree<T>)
    ensures Count(t) == |Elems(t)|
  {
    if t.Node? {
      CountIsCardinality(t.left);
      CountIsCardinality(t.right);
    }
  }

  // ---------- The top ----------

  lemma {:induction false} TopIsHighest<T(!new)>(outRanks: Ranking<T>, t: Tree<T>)
    requires t.Node? && StrictWeakOrder(outRanks) && Ordered(outRanks, t)
    ensures Highest(outRanks, t.data, Elems(t))
  {
    if t.left.Node? { TopIsHighest(outRanks, t.left); }
    if t.right.Node? { TopIsHighest(outRanks, t.right); }
  }

  /** The executable checker decides exactly the sizes and the heap order. */
  lemma {:induction false} CheckNodesDecides<T>(outRanks: Ranking<T>, t: Tree<T>)
    ensures CheckNodes(outRanks, t) <==> Sized(t) && Ordered(outRanks, t)
  {
    if t.Node? {
      CheckNodesDecides(outRanks, t.left);
      CheckNodesDecides(outRanks, t.right);
      assert Sized(t.left) ==> Count(t.left) == if t.left.Node? then t.left.size else 0;
      assert Sized(t.right) ==> Count(t.right) == if t.right.Node? then t.right.size else 0;
    }
  }

  // ---------- Push ----------

  lemma NodeAdds<T>(size: int, more: int, data: T, left: Tree<T>, right: Tree<T>, grown: Tree<T>, x: T)
    ensures Elems(grown) == Elems(left) + multiset{x} ==>
              Elems(Node(more, data, grown, right)) == Elems(Node(size, data, left, right)) + multiset{x}
    ensures Elems(grown) == Elems(right) + multiset{x} ==>
              Elems(Node(more, data, left, grown)) == Elems(Node(size, data, left, right)) + multiset{x}
  {
  }

  lemma {:induction false} PushAdds<T(!new)>(outRanks: Ranking<T>, t: Tree<T>, x: T)
    ensures Elems(Push(outRanks, t, x)) == Elems(t) + multiset{x}
    decreases Count(t), 1
  {
    if t.Node? {
      if outRanks(x, t.data) {
        SinkAdds(outRanks, t.(data := x), t.data);
      } else {
        SinkAdds(outRanks, t, x);
      }
    }
  }

  lemma {:induction false} SinkAdds<T(!new)>(outRanks: Ranking<T>, t: Tree<T>, low: T)
    requires t.Node?
    ensures Elems(Sink(outRanks, t, low)) == Elems(t) + multiset{low}
    decreases Count(t), 0
  {
    var Node(size, data, left, right) := t;
    if left.Empty? || (right.Node? && left.size <= right.size) {
      PushAdds(outRanks, left, low);
      NodeAdds(size, size + 1, data, left, right, Push(outRanks, left, low), low);
    } else {
      PushAdds(outRanks, right, low);
      NodeAdds(size, size + 1, data, left, right, Push(outRanks, right, low), low);
    }
  }

  lemma {:induction false} PushCounts<T>(outRanks: Ranking<T>, t: Tree<T>, x: T)
    ensures Count(Push(outRanks, t, x)) == Count(t) + 1
    ensures Sized(t) ==> Sized(Push(outRanks, t, x))
    decreases Count(t)
  {
    if t.Node? {
      var low := if outRanks(x, t.data) then t.data else x;
      PushCounts(outRanks, t.left, low);
      PushCounts(outRanks, t.right, low);
    }
  }

  lemma {:induction false} PushKeepsOrder<T(!new)>(outRanks: Ranking<T>, t: Tree<T>, x: T)
    requires StrictWeakOrder(outRanks) && Ordered(outRanks, t)
    ensures Ordered(outRanks, Push(outRanks, t, x))
    ensures var top := Push(outRanks, t, x).data; top == x || (t.Node? && top == t.data)
    decreases Count(t)
  {
    if t.Node? {
      var low := if outRanks(x, t.data) then t.data else x;
      PushKeepsOrder(outRanks, t.left, low);
      PushKeepsOrder(outRanks, t.right, low);
    }
  }

  /** A new element takes the top only if it outranks it; of equals the older stays. */
  lemma PushTop<T(!new)>(outRanks: Ranking<T>, t: Tree<T>, x: T)
    requires t.Node?
    ensures Push(outRanks, t, x).data == if outRanks(x, t.data) then x else t.data
  {
  }

  /** In any tree with right sizes a push adds its node to the subtree with fewer nodes, to the left one
    * when they are even, and leaves the other as it is. */
  lemma PushToSmaller<T>(outRanks: Ranking<T>, t: Tree<T>, x: T)
    requires t.Node? && Sized(t)
    ensures var r := Push(outRanks, t, x);
      && (Count(t.left) <= Count(t.right) ==> Count(r.left) == Count(t.left) + 1 && r.right == t.right)
      && (Count(t.left) > Count(t.right) ==> Count(r.right) == Count(t.right) + 1 && r.left == t.left)
  {
    var low := if outRanks(x, t.data) then t.data else x;
    PushCounts(outRanks, t.left, low);
    PushCounts(outRanks, t.right, low);
  }

  // ---------- Pop ----------

  lemma {:induction false} PopDropsTop<T(!new)>(outRanks: Ranking<T>, t: Tree<T>)
    requires t.Node?
    ensures Elems(t) == Elems(Pop(outRanks, t)) + multiset{t.data}
  {
    if t.left.Empty? && t.right.Empty? {
    } else if TakeLeft(outRanks, t.left, t.right) {
      PopDropsTop(outRanks, t.left);
    } else {
      PopDropsTop(outRanks, t.right);
    }
  }

  lemma {:induction false} PopCounts<T>(outRanks: Ranking<T>, t: Tree<T>)
    requires t.Node?
    ensures Count(t) == Count(Pop(outRanks, t)) + 1
    ensures Sized(t) ==> Sized(Pop(outRanks, t))
  {
    if t.left.Node? { PopCounts(outRanks, t.left); }
    if t.right.Node? { PopCounts(outRanks, t.right); }
  }

  lemma {:induction false} PopKeepsOrder<T(!new)>(outRanks: Ranking<T>, t: Tree<T>)
    requires t.Node? && StrictWeakOrder(outRanks) && Ordered(outRanks, t)
    ensures var p := Pop(outRanks, t);
            Ordered(outRanks, p) && (p.Node? ==> !outRanks(p.data, t.data))
  {
    if t.left.Node? { PopKeepsOrder(outRanks, t.left); }
    if t.right.Node? { PopKeepsOrder(outRanks, t.right); }
  }

  /** The higher ranked child takes the top, of equals the right one; the other subtree stays. */
  lemma PopPromotes<T(!new)>(outRanks: Ranking<T>, t: Tree<T>)
    requires t.Node?
    ensures var (p, left, right) := (Pop(outRanks, t), t.left, t.right);
      && (left.Empty? && right.Empty? <==> p.Empty?)
      && (left.Node? && (right.Empty? || outRanks(left.data, right.data)) ==> p.data == left.data && p.right == right)
      && (right.Node? && (left.Empty? || !outRanks(left.data, right.data)) ==> p.data == right.data && p.left == left)
  {
  }

  // ---------- Remove ----------

  /** Sound on any tree, complete on an ordered one: pruning never hides the element. */
  lemma {:induction false} RemoveFinds<T(!new)>(outRanks: Ranking<T>, t: Tree<T>, x: T)
    requires StrictWeakOrder(outRanks) && Ordered(outRanks, t)
    ensures Remove(outRanks, t, x).Some? <==> x in Elems(t)
  {
    if t.Node? {
      RemoveFinds(outRanks, t.left, x);
      RemoveFinds(outRanks, t.right, x);
      TopIsHighest(outRanks, t);
    }
  }

  /** An element that outranks the top is not searched for, also in a tree out of order. */
  lemma RemovePrunes<T>(outRanks: Ranking<T>, t: Tree<T>, x: T)
    requires t.Node? && x != t.data && outRanks(x, t.data)
    ensures Remove(outRanks, t, x) == None
  {
  }

  /** An element in both subtrees is taken from the left one; the other subtree stays. */
  lemma RemoveSide<T(!new)>(outRanks: Ranking<T>, t: Tree<T>, x: T)
    requires t.Node? && StrictWeakOrder(outRanks) && Ordered(outRanks, t) && x in Elems(t) && x != t.data
    ensures var p := Remove(outRanks, t, x);
      && p.Some? && p.value.Node? && p.value.data == t.data
      && (x in Elems(t.left) ==> p.value.right == t.right && Elems(t.left) == Elems(p.value.left) + multiset{x})
      && (x !in Elems(t.left) ==> p.value.left == t.left && Elems(t.right) == Elems(p.value.right) + multiset{x})
  {
    RemoveFinds(outRanks, t, x);
    RemoveFinds(outRanks, t.left, x);
    RemoveFinds(outRanks, t.right, x);
    if x in Elems(t.left) { RemoveTakesOne(outRanks, t.left, x); } else { RemoveTakesOne(outRanks, t.right, x); }
  }

  lemma {:induction false} RemoveTakesOne<T(!new)>(outRanks: Ranking<T>, t: Tree<T>, x: T)
    requires Remove(outRanks, t, x).Some?
    ensures Elems(t) == Elems(Remove(outRanks, t, x).value) + multiset{x}
  {
    if x == t.data {
      PopDropsTop(outRanks, t);
    } else if Remove(outRanks, t.left, x).Some? {
      RemoveTakesOne(outRanks, t.left, x);
    } else {
      RemoveTakesOne(outRanks, t.right, x);
    }
  }

  lemma {:induction false} RemoveCounts<T>(outRanks: Ranking<T>, t: Tree<T>, x: T)
    requires Remove(outRanks, t, x).Some?
    ensures Count(t) == Count(Remove(outRanks, t, x).value) + 1
    ensures Sized(t) ==> Sized(Remove(outRanks, t, x).value)
  {
    if x == t.data {
      PopCounts(outRanks, t);
    } else if Remove(outRanks, t.left, x).Some? {
      RemoveCounts(outRanks, t.left, x);
    } else {
      RemoveCounts(outRanks, t.right, x);
    }
  }

  lemma {:induction false} RemoveKeepsOrder<T(!new)>(outRanks: Ranking<T>, t: Tree<T>, x: T)
    requires StrictWeakOrder(outRanks) && Ordered(outRanks, t) && Remove(outRanks, t, x).Some?
    ensures var p := Remove(outRanks, t, x).value;
            Ordered(outRanks, p) && (p.Node? ==> !outRanks(p.data, t.data))
  {
    PopKeepsOrder(outRanks, t);
    if x == t.data {
    } else if Remove(outRanks, t.left, x).Some? {
      RemoveKeepsOrder(outRanks, t.left, x);
    } else {
      RemoveKeepsOrder(outRanks, t.right, x);
    }
  }
}
