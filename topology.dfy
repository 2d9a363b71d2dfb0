/** The compartment tree's topology and per-node parameters as values.

    The tree container is replaced by a parent list: node `c` has parent
    `parent[c]`, the root is node 0 and has no parent, and every other node's
    parent has a smaller index. Iterating over the nodes is then iterating
    over `0 .. n-1`, which is the order the fitting code relies on: the root
    comes first and `node.index` equals the position in the iteration. */
module Topology {

  /** The parent index of the root (`parent_node is None`). */
  const NoParent: int := -1

  predicate IsTree(parent: seq<int>)
  {
    && (|parent| > 0 ==> parent[0] == NoParent)
    && forall c :: 0 < c < |parent| ==> 0 <= parent[c] < c
  }

  /** The three numbers a compartment carries: capacitance `ca`, coupling
      conductance to the parent `g_c` (not used for the root) and leak
      conductance `g_l`. */
  datatype NodeParams = NodeParams(ca: real, g_c: real, g_l: real)

  /** A parameter list that belongs to the tree `parent`. */
  predicate ParamsFor(parent: seq<int>, p: seq<NodeParams>)
  {
    IsTree(parent) && |p| == |parent|
  }

  /** The length of the flat conductance vector: one slot for the root's
      leak, two for every other node (coupling, then leak). */
  function ParamCount(n: nat): nat
  {
    if n == 0 then 0 else 2 * n - 1
  }

  /** The node whose parameter sits in slot `k` of the flat conductance
      vector: slot 0 is the root's, slots `2c-1` and `2c` are node `c`'s. */
  function SlotOwner(k: nat): (c: nat)
    ensures k == 0 ==> c == 0
    ensures k > 0 ==> c > 0 && (k == 2 * c - 1 || k == 2 * c)
  {
    (k + 1) / 2
  }
}
