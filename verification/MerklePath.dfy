/** The authentication path of a public key in the OSNMA Merkle tree (gps/gnss/XmlFileParser.cpp;
  * section 6.2 of the Galileo OSNMA SIS ICD). */
module MerklePath {
  import opened Powers

  /** Node i of layer j, counted from the leaves. */
  datatype TreeNode<H> = TreeNode(uj: int, ui: int, hash: H)

  const LAYERS := 4  // nodes stored per public key

  function Sibling(i: nat): nat { if i % 2 == 0 then i + 1 else i - 1 }

  function Path(j: nat, i: nat, rootJ: nat): seq<nat>
    requires j <= rootJ
    decreases rootJ - j
  {
    if j == rootJ then [] else [Sibling(i)] + Path(j + 1, i / 2, rootJ)
  }

  /** The recursion of get_node_path, appending to the vector it is given. */
  method GetNodePath(j: int, i: int, rootJ: int, vec: seq<int>) returns (path: seq<int>)
    requires j <= rootJ
    ensures j < 0 || i < 0 ==> path == vec
    ensures 0 <= j && 0 <= i ==> path == vec + Path(j, i, rootJ)
    decreases rootJ - j
  {
    path := vec;
    if j < 0 || i < 0 {
      return;
    }
    if j == rootJ {
      return;
    }
    if i % 2 == 0 {
      path := path + [i + 1];
    } else {
      path := path + [i - 1];
    }
    path := GetNodePath(j + 1, i / 2, rootJ, path);
  }

  /** The first listed node with these coordinates, or the zero node. */
  function FindNode<H>(j: int, i: int, nodes: seq<TreeNode<H>>, zero: TreeNode<H>): TreeNode<H> {
    if nodes == [] then zero
    else if nodes[0].uj == j && nodes[0].ui == i then nodes[0]
    else FindNode(j, i, nodes[1..], zero)
  }

  method FindNodeLoop<H>(j: int, i: int, nodes: seq<TreeNode<H>>, zero: TreeNode<H>) returns (node: TreeNode<H>)
    ensures node == FindNode(j, i, nodes, zero)
  {
    for n := 0 to |nodes|
      invariant FindNode(j, i, nodes, zero) == FindNode(j, i, nodes[n..], zero)
    {
      assert nodes[n..][1..] == nodes[n + 1..];
      if j == nodes[n].uj && i == nodes[n].ui {
        return nodes[n];
      }
    }
    return zero;
  }

  /** The nodes of a key, layer by layer. */
  method FillNodes<H>(path: seq<int>, nodes: seq<TreeNode<H>>, zero: TreeNode<H>, zNodes: array<TreeNode<H>>)
    requires LAYERS <= |path| && zNodes.Length == LAYERS
    modifies zNodes
    ensures forall k :: 0 <= k < LAYERS ==> zNodes[k] == FindNode(k, path[k], nodes, zero)
  {
    for layer := 0 to LAYERS
      invariant forall k :: 0 <= k < layer ==> zNodes[k] == FindNode(k, path[k], nodes, zero)
    {
      zNodes[layer] := FindNodeLoop(layer, path[layer], nodes, zero);
    }
  }

  // ---------- The path ----------

  lemma HalfThenDivide(i: nat, p: nat)
    requires 0 < p
    ensures i / 2 / p == i / (2 * p)
  {
    var q, r := i / 2 / p, (i / 2) % p;
    assert i / 2 == q * p + r;
    assert 2 * (q * p) == q * (2 * p);
    QuotientUnique(i, 2 * p, q, 2 * r + i % 2);
  }

  lemma ProductAtLeast(a: int, d: nat)
    requires 1 <= a
    ensures d <= a * d
  {
  }

  lemma ProductDifference(a: int, b: int, d: int)
    ensures (a - b) * d == a * d - b * d
  {
  }

  lemma QuotientUnique(i: nat, d: nat, q: nat, m: nat)
    requires 0 < d && m < d && i == q * d + m
    ensures i / d == q
  {
    var p := i / d;
    assert i == p * d + i % d;
    ProductDifference(q, p, d);
    ProductDifference(p, q, d);
    if p < q {
      ProductAtLeast(q - p, d);
    } else if q < p {
      ProductAtLeast(p - q, d);
    }
  }

  lemma {:induction false} PathEntry(j: nat, i: nat, rootJ: nat, k: nat)
    requires j + k < rootJ
    ensures k < |Path(j, i, rootJ)| && Path(j, i, rootJ)[k] == Sibling(i / Pow2(k))
    decreases k
  {
    if k > 0 {
      PathEntry(j + 1, i / 2, rootJ, k - 1);
      HalfThenDivide(i, Pow2(k - 1));
    }
  }

  lemma {:induction false} PathLength(j: nat, i: nat, rootJ: nat)
    requires j <= rootJ
    ensures |Path(j, i, rootJ)| == rootJ - j
    decreases rootJ - j
  {
    if j < rootJ { PathLength(j + 1, i / 2, rootJ); }
  }

  /** Exactly rootJ entries; entry k is the sibling of the leaf's ancestor in layer k. */
  lemma PathEntries(j: nat, i: nat, rootJ: nat)
    requires j <= rootJ
    ensures |Path(j, i, rootJ)| == rootJ - j
    ensures forall k :: 0 <= k < rootJ - j ==> Path(j, i, rootJ)[k] == Sibling(i / Pow2(k))
  {
    PathLength(j, i, rootJ);
    forall k | 0 <= k < rootJ - j ensures Path(j, i, rootJ)[k] == Sibling(i / Pow2(k)) {
      PathEntry(j, i, rootJ, k);
    }
  }

  // ---------- Hashing up the path ----------

  /** The hash of two neighbours; x(j, i) is the hash of node i in layer j. */
  ghost predicate MerkleTree<H(!new)>(h: (H, H) -> H, x: (nat, nat) -> H, rootJ: nat) {
    forall j: nat, i: nat :: j < rootJ && i < Pow2(rootJ - j - 1) ==>
      x(j + 1, i) == h(x(j, 2 * i), x(j, 2 * i + 1))
  }

  predicate Listed<H(==)>(nodes: seq<TreeNode<H>>, j: int, i: int) {
    exists n :: n in nodes && n.uj == j && n.ui == i
  }

  /** Every listed node is right, and the nodes of the path are listed. */
  ghost predicate Supplies<H(!new)>(nodes: seq<TreeNode<H>>, x: (nat, nat) -> H, j: nat, i: nat, rootJ: nat)
    requires j <= rootJ
  {
    && (forall n :: n in nodes && 0 <= n.uj && 0 <= n.ui ==> n.hash == x(n.uj, n.ui))
    && (forall k :: 0 <= k < |Path(j, i, rootJ)| ==> Listed(nodes, j + k, Path(j, i, rootJ)[k]))
  }

  /** From the hash of node i in layer j up to the root, with the nodes found for the path. */
  function Climb<H>(h: (H, H) -> H, nodes: seq<TreeNode<H>>, zero: TreeNode<H>, j: nat, i: nat, rootJ: nat, own: H): H
    requires j <= rootJ
    decreases rootJ - j
  {
    if j == rootJ then own
    else
      var other := FindNode(j, Sibling(i), nodes, zero).hash;
      Climb(h, nodes, zero, j + 1, i / 2, rootJ, if i % 2 == 0 then h(own, other) else h(other, own))
  }

  lemma {:induction false} FindsListed<H>(j: int, i: int, nodes: seq<TreeNode<H>>, zero: TreeNode<H>)
    requires Listed(nodes, j, i)
    ensures var n := FindNode(j, i, nodes, zero); n in nodes && n.uj == j && n.ui == i
  {
    if !(nodes[0].uj == j && nodes[0].ui == i) {
      FindsListed(j, i, nodes[1..], zero);
    }
  }

  /** Of several nodes with the coordinates the first is found; without any, the zero node. */
  lemma {:induction false} FindsFirst<H>(j: int, i: int, nodes: seq<TreeNode<H>>, zero: TreeNode<H>, k: nat)
    requires k <= |nodes| && forall m :: 0 <= m < k ==> nodes[m].uj != j || nodes[m].ui != i
    ensures k < |nodes| && nodes[k].uj == j && nodes[k].ui == i ==> FindNode(j, i, nodes, zero) == nodes[k]
    ensures k == |nodes| ==> FindNode(j, i, nodes, zero) == zero
  {
    if k > 0 { FindsFirst(j, i, nodes[1..], zero, k - 1); }
  }

  lemma SuppliesNext<H(!new)>(
    nodes: seq<TreeNode<H>>, x: (nat, nat) -> H, j: nat, i: nat, rootJ: nat, zero: TreeNode<H>)
    requires j < rootJ && Supplies(nodes, x, j, i, rootJ)
    ensures Supplies(nodes, x, j + 1, i / 2, rootJ)
    ensures FindNode(j, Sibling(i), nodes, zero).hash == x(j, Sibling(i))
  {
    var path, next := Path(j, i, rootJ), Path(j + 1, i / 2, rootJ);
    assert path == [Sibling(i)] + next;
    assert Listed(nodes, j + 0, path[0]);
    FindsListed(j, Sibling(i), nodes, zero);
    forall k | 0 <= k < |next| ensures Listed(nodes, j + 1 + k, next[k]) {
      assert path[k + 1] == next[k];
      assert Listed(nodes, j + (k + 1), path[k + 1]);
    }
  }

  /** Hashing the right node up its path reproduces the root of the tree. */
  lemma {:induction false} ClimbReachesRoot<H(!new)>(
    h: (H, H) -> H, x: (nat, nat) -> H, nodes: seq<TreeNode<H>>, zero: TreeNode<H>, j: nat, i: nat, rootJ: nat)
    requires MerkleTree(h, x, rootJ) && j <= rootJ && i < Pow2(rootJ - j)
    requires Supplies(nodes, x, j, i, rootJ)
    ensures Climb(h, nodes, zero, j, i, rootJ, x(j, i)) == x(rootJ, 0)
    decreases rootJ - j
  {
    if j < rootJ {
      SuppliesNext(nodes, x, j, i, rootJ, zero);
      assert x(j + 1, i / 2) == h(x(j, 2 * (i / 2)), x(j, 2 * (i / 2) + 1));
      ClimbReachesRoot(h, x, nodes, zero, j + 1, i / 2, rootJ);
    }
  }

  /** When no two pairs have the same hash, no other value reproduces the root. */
  lemma {:induction false} OnlyLeafReachesRoot<H(!new)>(
    h: (H, H) -> H, x: (nat, nat) -> H, nodes: seq<TreeNode<H>>, zero: TreeNode<H>, j: nat, i: nat, rootJ: nat, own: H)
    requires MerkleTree(h, x, rootJ) && j <= rootJ && i < Pow2(rootJ - j)
    requires Supplies(nodes, x, j, i, rootJ)
    requires forall a, b, c, d :: h(a, b) == h(c, d) ==> a == c && b == d
    requires Climb(h, nodes, zero, j, i, rootJ, own) == x(rootJ, 0)
    ensures own == x(j, i)
    decreases rootJ - j
  {
    if j < rootJ {
      SuppliesNext(nodes, x, j, i, rootJ, zero);
      var other := x(j, Sibling(i));
      var up := if i % 2 == 0 then h(own, other) else h(other, own);
      OnlyLeafReachesRoot(h, x, nodes, zero, j + 1, i / 2, rootJ, up);
      assert x(j + 1, i / 2) == h(x(j, 2 * (i / 2)), x(j, 2 * (i / 2) + 1));
      assert if i % 2 == 0 then h(own, other) == h(x(j, i), other) else h(other, own) == h(other, x(j, i));
    }
  }
}
