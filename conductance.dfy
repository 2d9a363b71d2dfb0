/** The conductance matrix of a compartment tree: the tree Laplacian with
    the coupling conductances as edge weights, plus the leak conductances on
    the diagonal (compartmenttree.py, `calcConductanceMatrix`). */
module Conductance {
  import opened Topology
  import opened LinAlg

  /** The sum of the coupling conductances of those children of `i` whose
      index is below `m`. */
  function ChildCoupling(parent: seq<int>, p: seq<NodeParams>, m: nat, i: int): real
    requires ParamsFor(parent, p) && m <= |parent|
  {
    if m == 0 then 0.0
    else ChildCoupling(parent, p, m - 1, i)
         + (if parent[m - 1] != NoParent && parent[m - 1] == i then p[m - 1].g_c else 0.0)
  }

  /** Cell `(i, j)` of the conductance matrix once nodes `0 .. m-1` have been
      accounted for: a node's diagonal holds its own leak and coupling and the
      couplings of its children; the cell of a parent and its child holds
      minus the child's coupling; every other cell is zero. */
  function EntryUpTo(parent: seq<int>, p: seq<NodeParams>, m: nat, i: nat, j: nat): real
    requires ParamsFor(parent, p) && m <= |parent| && i < |parent| && j < |parent|
  {
    if i == j then
      (if i < m then p[i].g_l + p[i].g_c else 0.0) + ChildCoupling(parent, p, m, i)
    else if 0 < j < m && parent[j] == i then -p[j].g_c
    else if 0 < i < m && parent[i] == j then -p[i].g_c
    else 0.0
  }

  function Entry(parent: seq<int>, p: seq<NodeParams>, i: nat, j: nat): real
    requires ParamsFor(parent, p) && i < |parent| && j < |parent|
  {
    EntryUpTo(parent, p, |parent|, i, j)
  }

  function ConductanceMatrix(parent: seq<int>, p: seq<NodeParams>): (g: seq<seq<real>>)
    requires ParamsFor(parent, p)
    ensures IsSquare(g, |parent|)
    ensures forall i, j :: 0 <= i < |parent| && 0 <= j < |parent| ==> g[i][j] == g[j][i]
  {
    seq(|parent|, i requires 0 <= i < |parent| =>
      seq(|parent|, j requires 0 <= j < |parent| => Entry(parent, p, i, j)))
  }

  /** What the loop body of `calcConductanceMatrix` adds to cell `(i, j)`
      for node `c`: its leak plus its coupling on its own diagonal and, when
      it has a parent `q`, its coupling on `(q, q)` and minus its coupling on
      `(c, q)` and `(q, c)`. */
  function Contribution(parent: seq<int>, p: seq<NodeParams>, c: nat, i: nat, j: nat): real
    requires ParamsFor(parent, p) && c < |parent|
  {
    var own := if i == c && j == c then p[c].g_l + p[c].g_c else 0.0;
    if parent[c] == NoParent then own
    else
      var q := parent[c];
      own + (if i == q && j == q then p[c].g_c else 0.0)
          - (if i == c && j == q then p[c].g_c else 0.0)
          - (if i == q && j == c then p[c].g_c else 0.0)
  }

  /** Visiting node `m` adds exactly its contribution to every cell. */
  lemma AccumulateStep(parent: seq<int>, p: seq<NodeParams>, m: nat, i: nat, j: nat)
    requires ParamsFor(parent, p) && m < |parent| && i < |parent| && j < |parent|
    ensures EntryUpTo(parent, p, m + 1, i, j)
         == EntryUpTo(parent, p, m, i, j) + Contribution(parent, p, m, i, j)
  {
  }

  /** The part of row `i` outside the diagonal that comes from `i`'s children. */
  function ChildRow(parent: seq<int>, p: seq<NodeParams>, i: nat): (r: seq<real>)
    requires ParamsFor(parent, p)
    ensures |r| == |parent|
  {
    seq(|parent|, c requires 0 <= c < |parent| =>
      if parent[c] != NoParent && parent[c] == i then p[c].g_c else 0.0)
  }

  lemma {:induction false} ChildRowSum(parent: seq<int>, p: seq<NodeParams>, i: nat, m: nat)
    requires ParamsFor(parent, p) && m <= |parent|
    ensures SumTo(ChildRow(parent, p, i), m) == ChildCoupling(parent, p, m, i)
  {
    if m > 0 {
      ChildRowSum(parent, p, i, m - 1);
    }
  }

  /** Row-sum law: the coupling terms of every row cancel, so row `i` sums to
      node `i`'s leak conductance; the root's row also keeps the root's own
      `g_c`, which the matrix builder adds to `(0, 0)` although no edge
      carries it. */
  lemma RowSum(parent: seq<int>, p: seq<NodeParams>, i: nat)
    requires ParamsFor(parent, p) && i < |parent|
    ensures Sum(ConductanceMatrix(parent, p)[i])
         == p[i].g_l + (if i == 0 then p[0].g_c else 0.0)
  {
    var n := |parent|;
    var row := ConductanceMatrix(parent, p)[i];
    var diag := seq(n, j requires 0 <= j < n =>
      if j == i then p[i].g_l + p[i].g_c + ChildCoupling(parent, p, n, i) else 0.0);
    var children := ChildRow(parent, p, i);
    var negChildren := seq(n, j requires 0 <= j < n => -children[j]);
    var up := seq(n, j requires 0 <= j < n =>
      if i > 0 && j == parent[i] then -p[i].g_c else 0.0);
    var offDiag := seq(n, j requires 0 <= j < n => negChildren[j] + up[j]);
    forall j | 0 <= j < n
      ensures row[j] == diag[j] + offDiag[j]
    {
    }
    SumAdd(diag, offDiag, row, n);
    SumUnit(diag, i, n);
    SumAdd(negChildren, up, offDiag, n);
    SumNeg(children, negChildren, n);
    ChildRowSum(parent, p, i, n);
    if i > 0 {
      SumUnit(up, parent[i], n);
    } else {
      SumZero(up, n);
    }
  }

  /** The sparsity pattern is the tree's adjacency: an off-diagonal cell
      `(i, j)` is minus the child's coupling when one of `i`, `j` is the
      other's parent, and zero otherwise. */
  lemma OffDiagonal(parent: seq<int>, p: seq<NodeParams>, i: nat, j: nat)
    requires ParamsFor(parent, p) && i < |parent| && j < |parent| && i != j
    ensures 0 < j && parent[j] == i ==> Entry(parent, p, i, j) == -p[j].g_c
    ensures 0 < i && parent[i] == j ==> Entry(parent, p, i, j) == -p[i].g_c
    ensures !(0 < j && parent[j] == i) && !(0 < i && parent[i] == j) ==> Entry(parent, p, i, j) == 0.0
  {
  }

  /** The conductance matrix is symmetric. */
  lemma Symmetric(parent: seq<int>, p: seq<NodeParams>, i: nat, j: nat)
    requires ParamsFor(parent, p) && i < |parent| && j < |parent|
    ensures Entry(parent, p, i, j) == Entry(parent, p, j, i)
  {
  }
}
