/** The pointer heap of gps/utils/LocHeap.cpp: nodes updated in place, proved against RankedTree. */
module LocHeapModule {
  import opened Wrappers
  import RT = RankedTree
  import opened HeapRuns

  /** T stands for the address of a rankable object, so `==` on T is the source's comparison by
    * address; `outRanks` is what the object's own ranking answers. */
  class LocHeapNode<T(==, !new)> {
    var size: int
    var left: LocHeapNode?<T>
    var right: LocHeapNode?<T>
    var data: T
    ghost var shape: RT.Tree<T>          // the subtree as a value
    ghost var repr: set<LocHeapNode<T>>  // holds every node of the subtree

    /** A tree without sharing: each node owns its two subtrees. */
    ghost predicate Valid()
      reads this, repr
      ensures Valid() ==> shape.Node?
      decreases repr
    {
      && this in repr
      && shape.Node? && shape.size == size && shape.data == data
      && (left == null ==> shape.left == RT.Empty)
      && (left != null ==>
            && left in repr && left.repr <= repr && this !in left.repr
            && left.Valid() && shape.left == left.shape)
      && (right == null ==> shape.right == RT.Empty)
      && (right != null ==>
            && right in repr && right.repr <= repr && this !in right.repr
            && right.Valid() && shape.right == right.shape)
      && (left != null && right != null ==> left.repr !! right.repr)
    }

    ghost predicate IsSingle()
      reads this
    {
      left == null && right == null && repr == {this} && shape == RT.Leaf(data) && size == 1
    }

    constructor (x: T)
      ensures IsSingle() && data == x
    {
      size, left, right, data := 1, null, null, x;
      repr := {this};
      shape := RT.Leaf(x);
    }

    /** Only the data of the two nodes changes place. */
    method Swap(node: LocHeapNode<T>)
      requires node != this && shape.Node? && node.shape.Node?
      modifies this`data, node`data, this`shape, node`shape
      ensures data == old(node.data) && node.data == old(data)
      ensures shape == old(shape).(data := data)
      ensures node.shape == old(node.shape).(data := node.data)
    {
      data, node.data := node.data, data;
      shape := shape.(data := data);
      node.shape := node.shape.(data := node.data);
    }

    method Push(outRanks: RT.Ranking<T>, node: LocHeapNode<T>)
      requires Valid() && node.IsSingle() && node !in repr
      modifies repr, node
      ensures Valid() && repr == old(repr) + {node}
      ensures shape == RT.Push(outRanks, old(shape), old(node.data))
      decreases repr, 1
    {
      if outRanks(node.data, data) {
        Swap(node);
      }
      Sink(outRanks, node);
    }

    /** The second half of push: the lower ranked node goes to the smaller subtree. */
    method Sink(outRanks: RT.Ranking<T>, node: LocHeapNode<T>)
      requires Valid() && node.IsSingle() && node !in repr
      modifies repr, node
      ensures Valid() && repr == old(repr) + {node}
      ensures shape == RT.Sink(outRanks, old(shape), old(node.data))
      decreases repr, 0
    {
      if left == null {
        left := node;
        shape := shape.(left := node.shape);
      } else if right == null {
        right := node;
        shape := shape.(right := node.shape);
      } else if left.size <= right.size {
        left.Push(outRanks, node);
        shape := shape.(left := left.shape);
      } else {
        right.Push(outRanks, node);
        shape := shape.(right := right.shape);
      }
      size := size + 1;
      shape := shape.(size := size);
      repr := repr + {node};
    }

    /** `rest` is what the source leaves in the reference parameter `top`. */
    static method Pop(outRanks: RT.Ranking<T>, top: LocHeapNode<T>)
      returns (popped: LocHeapNode<T>, rest: LocHeapNode?<T>)
      requires top.Valid()
      modifies top.repr
      ensures popped in old(top.repr) && popped.data == old(top.data)
      ensures popped.left == null && popped.right == null
      ensures RT.Sized(old(top.shape)) ==> popped.size == 0
      ensures rest == null ==> popped == top && RT.Pop(outRanks, old(top.shape)) == RT.Empty
      ensures rest != null ==>
                && rest == top && top.Valid() && popped != top
                && top.repr == old(top.repr) - {popped}
                && top.shape == RT.Pop(outRanks, old(top.shape))
      decreases top.repr, 1
    {
      popped := top;
      rest := top;
      if top.left != null || top.right != null {
        if top.left != null && (top.right == null || outRanks(top.left.data, top.right.data)) {
          popped := top.PopLeft(outRanks);
        } else {
          popped := top.PopRight(outRanks);
        }
      } else {
        assert top.shape == RT.Node(top.size, top.data, RT.Empty, RT.Empty) && RT.Count(top.shape) == 1;
        top.size := top.size - 1;
        rest := null;
      }
    }

    /** The left child's data moves up; this node's data is popped from the left subtree. */
    method PopLeft(outRanks: RT.Ranking<T>) returns (popped: LocHeapNode<T>)
      requires Valid() && left != null
      modifies repr
      ensures popped in old(repr) && popped != this && popped.data == old(data)
      ensures popped.left == null && popped.right == null
      ensures RT.Sized(old(left.shape)) ==> popped.size == 0
      ensures Valid() && repr == old(repr) - {popped}
      ensures shape == RT.Node(old(size) - 1, old(left.data),
                               RT.Pop(outRanks, old(left.shape)), old(shape.right))
      decreases repr, 0
    {
      size := size - 1;
      Swap(left);
      var subTop;
      popped, subTop := Pop(outRanks, left);
      left := subTop;
      shape := RT.Node(size, data, if left == null then RT.Empty else left.shape, shape.right);
      repr := repr - {popped};
    }

    method PopRight(outRanks: RT.Ranking<T>) returns (popped: LocHeapNode<T>)
      requires Valid() && right != null
      modifies repr
      ensures popped in old(repr) && popped != this && popped.data == old(data)
      ensures popped.left == null && popped.right == null
      ensures RT.Sized(old(right.shape)) ==> popped.size == 0
      ensures Valid() && repr == old(repr) - {popped}
      ensures shape == RT.Node(old(size) - 1, old(right.data),
                               old(shape.left), RT.Pop(outRanks, old(right.shape)))
      decreases repr, 0
    {
      size := size - 1;
      Swap(right);
      var subTop;
      popped, subTop := Pop(outRanks, right);
      right := subTop;
      shape := RT.Node(size, data, shape.left, if right == null then RT.Empty else right.shape);
      repr := repr - {popped};
    }

    /** Searches below nodes that x does not outrank; NULL leaves every node as it was. */
    static method Remove(outRanks: RT.Ranking<T>, top: LocHeapNode<T>, x: T)
      returns (removed: LocHeapNode?<T>, rest: LocHeapNode?<T>)
      requires top.Valid()
      modifies top.repr
      ensures removed == null <==> RT.Remove(outRanks, old(top.shape), x).None?
      ensures removed == null ==> rest == top && top.Valid() && unchanged(old(top.repr))
      ensures removed != null ==>
                && removed in old(top.repr) && removed.data == x
                && removed.left == null && removed.right == null
                && (RT.Sized(old(top.shape)) ==> removed.size == 0)
      ensures removed != null && rest == null ==>
                removed == top && RT.Remove(outRanks, old(top.shape), x).value == RT.Empty
      ensures removed != null && rest != null ==>
                && rest == top && top.Valid() && removed != top
                && top.repr == old(top.repr) - {removed}
                && top.shape == RT.Remove(outRanks, old(top.shape), x).value
      decreases top.repr, 1
    {
      removed := null;
      rest := top;
      if x == top.data {
        removed, rest := Pop(outRanks, top);
      } else if !outRanks(x, top.data) {
        if top.left != null {
          removed := top.RemoveLeft(outRanks, x);
        }
        if removed == null && top.right != null {
          removed := top.RemoveRight(outRanks, x);
        }
      }
    }

    method RemoveLeft(outRanks: RT.Ranking<T>, x: T) returns (removed: LocHeapNode?<T>)
      requires Valid() && left != null
      modifies repr
      ensures removed == null <==> RT.Remove(outRanks, old(left.shape), x).None?
      ensures removed == null ==> Valid() && unchanged(old(repr))
      ensures removed != null ==>
                && removed in old(repr) && removed != this && removed.data == x
                && removed.left == null && removed.right == null
                && (RT.Sized(old(left.shape)) ==> removed.size == 0)
                && Valid() && repr == old(repr) - {removed}
                && shape == RT.Node(old(size) - 1, old(data),
                                    RT.Remove(outRanks, old(left.shape), x).value, old(shape.right))
      decreases repr, 0
    {
      var subTop;
      removed, subTop := Remove(outRanks, left, x);
      if removed != null {
        left := subTop;
        size := size - 1;
        shape := RT.Node(size, data, if left == null then RT.Empty else left.shape, shape.right);
        repr := repr - {removed};
      }
    }

    method RemoveRight(outRanks: RT.Ranking<T>, x: T) returns (removed: LocHeapNode?<T>)
      requires Valid() && right != null
      modifies repr
      ensures removed == null <==> RT.Remove(outRanks, old(right.shape), x).None?
      ensures removed == null ==> Valid() && unchanged(old(repr))
      ensures removed != null ==>
                && removed in old(repr) && removed != this && removed.data == x
                && removed.left == null && removed.right == null
                && (RT.Sized(old(right.shape)) ==> removed.size == 0)
                && Valid() && repr == old(repr) - {removed}
                && shape == RT.Node(old(size) - 1, old(data),
                                    old(shape.left), RT.Remove(outRanks, old(right.shape), x).value)
      decreases repr, 0
    {
      var subTop;
      removed, subTop := Remove(outRanks, right, x);
      if removed != null {
        right := subTop;
        size := size - 1;
        shape := RT.Node(size, data, shape.left, if right == null then RT.Empty else right.shape);
        repr := repr - {removed};
      }
    }

    method CheckNodes(outRanks: RT.Ranking<T>) returns (ok: bool)
      requires Valid()
      ensures ok <==> RT.Sized(shape) && RT.Ordered(outRanks, shape)
      decreases repr
    {
      RT.CheckNodesDecides(outRanks, shape);
      assert RT.CheckNodes(outRanks, shape) ==>
          && (left != null ==> !outRanks(left.data, data) && RT.CheckNodes(outRanks, left.shape))
          && (right != null ==> !outRanks(right.data, data) && RT.CheckNodes(outRanks, right.shape));
      if left != null { RT.CheckNodesDecides(outRanks, left.shape); }
      if right != null { RT.CheckNodesDecides(outRanks, right.shape); }
      var totalSize := size;
      if left != null {
        if outRanks(left.data, data) {
          return false;
        }
        ok := left.CheckNodes(outRanks);
        if !ok {
          return;
        }
        totalSize := totalSize - left.size;
      }
      if right != null {
        if outRanks(right.data, data) {
          return false;
        }
        ok := right.CheckNodes(outRanks);
        if !ok {
          return;
        }
        totalSize := totalSize - right.size;
      }
      ok := totalSize == 1;
    }
  }

  /** The heap a client holds: a priority queue over the multiset of the stored elements. */
  class LocHeap<T(==, !new)> {
    const outRanks: RT.Ranking<T>
    var tree: LocHeapNode?<T>

    ghost predicate Linked()
      reads this, tree, Nodes()
    {
      tree != null ==> tree.Valid()
    }

    ghost predicate Valid()
      reads this, tree, Nodes()
    {
      Linked() && RT.Heap(outRanks, Shape())
    }

    ghost function Shape(): RT.Tree<T>
      reads this, tree
    {
      if tree == null then RT.Empty else tree.shape
    }

    ghost function Contents(): multiset<T>
      reads this, tree
    {
      RT.Elems(Shape())
    }

    /** Every node reachable from `tree`, possibly with others. */
    ghost function Nodes(): set<LocHeapNode<T>>
      reads this, tree
    {
      if tree == null then {} else tree.repr
    }

    constructor (outRanks: RT.Ranking<T>)
      requires RT.StrictWeakOrder(outRanks)
      ensures Valid() && Contents() == multiset{} && Nodes() == {}
      ensures this.outRanks == outRanks
    {
      this.outRanks := outRanks;
      tree := null;
    }

    method Push(x: T)
      requires Valid()
      modifies this, Nodes()
      ensures Valid() && fresh(Nodes() - old(Nodes()))
      ensures Contents() == old(Contents()) + multiset{x}
    {
      PushRefines(outRanks, Shape(), x);
      PushNode(x);
    }

    method PushNode(x: T)
      requires Linked()
      modifies this, Nodes()
      ensures Linked() && fresh(Nodes() - old(Nodes()))
      ensures Shape() == RT.Push(outRanks, old(Shape()), x)
    {
      var heapNode := new LocHeapNode(x);
      if tree == null {
        tree := heapNode;
      } else {
        tree.Push(outRanks, heapNode);
      }
    }

    method Peek() returns (top: Option<T>)
      requires Valid()
      ensures top == None <==> Contents() == multiset{}
      ensures top.Some? ==> top.value in Contents() && RT.Highest(outRanks, top.value, Contents())
    {
      top := None;
      if tree != null {
        RT.TopIsHighest(outRanks, Shape());
        top := Some(tree.data);
      }
    }

    method Pop() returns (r: Option<T>)
      requires Valid()
      modifies this, Nodes()
      ensures Valid() && Nodes() <= old(Nodes())
      ensures r == None <==> old(Contents()) == multiset{}
      ensures r == None ==> Contents() == old(Contents())
      ensures r.Some? ==>
                && RT.Highest(outRanks, r.value, old(Contents()))
                && old(Contents()) == Contents() + multiset{r.value}
    {
      r := None;
      if tree != null {
        PopRefines(outRanks, Shape());
        var popped := PopNode();
        r := Some(popped.data);
      }
    }

    /** The detached node is a childless node outside the tree, so deleting it is safe. */
    method PopNode() returns (popped: LocHeapNode<T>)
      requires Linked() && tree != null
      modifies this, Nodes()
      ensures Linked() && Nodes() <= old(Nodes())
      ensures Shape() == RT.Pop(outRanks, old(Shape())) && popped.data == old(tree.data)
      ensures popped in old(Nodes()) && popped !in Nodes()
      ensures popped.left == null && popped.right == null
      ensures RT.Sized(old(Shape())) ==> popped.size == 0
    {
      popped, tree := LocHeapNode.Pop(outRanks, tree);
    }

    /** Some exactly when x is stored, and then one occurrence of x is gone. */
    method Remove(x: T) returns (r: Option<T>)
      requires Valid()
      modifies this, Nodes()
      ensures Valid() && Nodes() <= old(Nodes())
      ensures r == if x in old(Contents()) then Some(x) else None
      ensures r.Some? ==> old(Contents()) == Contents() + multiset{x}
      ensures r == None ==> Shape() == old(Shape()) && Nodes() == old(Nodes())
    {
      RemoveRefines(outRanks, Shape(), x);
      var removed := RemoveNode(x);
      r := if removed == null then None else Some(removed.data);
    }

    method RemoveNode(x: T) returns (removed: LocHeapNode?<T>)
      requires Linked()
      modifies this, Nodes()
      ensures Linked() && Nodes() <= old(Nodes())
      ensures removed == null <==> RT.Remove(outRanks, old(Shape()), x).None?
      ensures removed == null ==> tree == old(tree) && unchanged(old(Nodes()))
      ensures removed != null ==>
                && removed.data == x && removed in old(Nodes()) && removed !in Nodes()
                && removed.left == null && removed.right == null
                && (RT.Sized(old(Shape())) ==> removed.size == 0)
                && Shape() == RT.Remove(outRanks, old(Shape()), x).value
    {
      removed := null;
      if tree != null {
        removed, tree := LocHeapNode.Remove(outRanks, tree, x);
      }
    }

    method CheckTree() returns (ok: bool)
      requires Linked()
      ensures ok <==> RT.Sized(Shape()) && RT.Ordered(outRanks, Shape())
    {
      ok := true;
      if tree != null {
        ok := tree.CheckNodes(outRanks);
      }
    }

    method GetTreeSize() returns (n: int)
      requires Valid()
      ensures n == |Contents()|
    {
      RT.CountIsCardinality(Shape());
      n := if tree == null then 0 else tree.size;
    }
  }
}
