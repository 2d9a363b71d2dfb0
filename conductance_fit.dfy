/** The conductance fit's linear-regression form (compartmenttree.py,
    `_toStructureTensorG`, `_toVecG`, `_toTreeG`, `computeG`): a flat
    parameter vector, a structure tensor whose slot `k` holds the matrix a
    unit value of parameter `k` contributes, and the least-squares system
    built from a target steady-state impedance matrix. */
module ConductanceFit {
  import opened Topology
  import opened LinAlg
  import opened Conductance

  /** Cell `(i, j, k)` of the conductance structure tensor: slot 0 is a unit
      leak at the root; slot `2c-1` is a unit coupling between node `c` and
      its parent `q` (+1 on `(c,c)` and `(q,q)`, -1 on `(c,q)` and `(q,c)`);
      slot `2c` is a unit leak at node `c`. */
  function StructureEntry(parent: seq<int>, i: nat, j: nat, k: nat): real
    requires IsTree(parent) && i < |parent| && j < |parent| && k < ParamCount(|parent|)
  {
    var c := SlotOwner(k);
    if c == 0 then
      (if i == 0 && j == 0 then 1.0 else 0.0)
    else if k == 2 * c - 1 then
      var q := parent[c];
      if (i == c && j == c) || (i == q && j == q) then 1.0
      else if (i == c && j == q) || (i == q && j == c) then -1.0
      else 0.0
    else
      (if i == c && j == c then 1.0 else 0.0)
  }

  /** The `n` by `n` by `2n-1` structure tensor as a value. */
  function StructureTensor(parent: seq<int>): (s: seq<seq<seq<real>>>)
    requires IsTree(parent)
    ensures |s| == |parent|
    ensures forall i :: 0 <= i < |parent| ==> |s[i]| == |parent| && RowsOfLength(s[i], ParamCount(|parent|))
  {
    var n := |parent|;
    seq(n, i requires 0 <= i < n => seq(n, j requires 0 <= j < n => StructureSlice(parent, i, j)))
  }

  /** The slots of cell `(i, j)` of the structure tensor. */
  function StructureSlice(parent: seq<int>, i: nat, j: nat): (r: seq<real>)
    requires IsTree(parent) && i < |parent| && j < |parent|
    ensures |r| == ParamCount(|parent|)
  {
    seq(ParamCount(|parent|), k requires 0 <= k < ParamCount(|parent|) => StructureEntry(parent, i, j, k))
  }

  /** Every slot of the structure tensor is a symmetric matrix, and it is
      nonzero only on the diagonal and on the cells that join a node to its
      parent. */
  lemma StructureSymmetric(parent: seq<int>)
    requires IsTree(parent)
    ensures forall i, j :: 0 <= i < |parent| && 0 <= j < |parent| ==>
              StructureTensor(parent)[i][j] == StructureTensor(parent)[j][i]
    ensures forall i, j, k ::
              (0 <= i < |parent| && 0 <= j < |parent| && 0 <= k < ParamCount(|parent|) &&
               StructureTensor(parent)[i][j][k] != 0.0)
              ==> i == j || (i > 0 && parent[i] == j) || (j > 0 && parent[j] == i)
  {
  }

  /** The flat conductance vector (`_toVecG`): the root's leak in slot 0,
      node `c`'s coupling in slot `2c-1` and its leak in slot `2c`. */
  function VecG(p: seq<NodeParams>): (v: seq<real>)
    ensures |v| == ParamCount(|p|)
  {
    seq(ParamCount(|p|), k requires 0 <= k < ParamCount(|p|) =>
      if k == 0 then p[0].g_l
      else if k % 2 == 1 then p[SlotOwner(k)].g_c
      else p[SlotOwner(k)].g_l)
  }

  /** Writing a flat vector back onto the nodes (`_toTreeG`): the root's
      leak from slot 0, node `c`'s coupling and leak from slots `2c-1` and
      `2c`. Capacitances and the root's coupling are left alone. */
  function UnpackG(p: seq<NodeParams>, v: seq<real>): (r: seq<NodeParams>)
    requires |v| >= ParamCount(|p|)
    ensures |r| == |p|
    ensures forall c :: 0 <= c < |p| ==> r[c].ca == p[c].ca
    ensures |p| > 0 ==> r[0].g_c == p[0].g_c
  {
    seq(|p|, c requires 0 <= c < |p| =>
      if c == 0 then p[c].(g_l := v[0])
      else p[c].(g_c := v[2 * c - 1], g_l := v[2 * c]))
  }

  /** The write-back of `UnpackG` carried out one slot at a time and stopped
      after slots `0 .. k-1`: slot `k-1` is the leak of node 0 (`k-1 == 0`),
      the coupling of node `c` (`k-1 == 2c-1`) or the leak of node `c`
      (`k-1 == 2c`). */
  function UnpackGPrefix(p: seq<NodeParams>, v: seq<real>, k: nat): (r: seq<NodeParams>)
    requires k <= |v| && k <= ParamCount(|p|)
    ensures |r| == |p|
    ensures forall c :: 0 <= c < |p| ==> r[c].ca == p[c].ca
    ensures |p| > 0 ==> r[0].g_c == p[0].g_c
    ensures forall c :: 0 <= c < |p| && k <= ParamCount(c) ==> r[c] == p[c]
  {
    if k == 0 then p
    else
      var q := UnpackGPrefix(p, v, k - 1);
      var c := SlotOwner(k - 1);
      q[c := if c > 0 && k - 1 == 2 * c - 1 then q[c].(g_c := v[k - 1]) else q[c].(g_l := v[k - 1])]
  }

  /** After the first `k` slots, every slot below `k` has been written and
      every slot from `k` on still holds the node's old value. */
  lemma {:induction false} UnpackGPrefixCell(p: seq<NodeParams>, v: seq<real>, k: nat, c: nat)
    requires k <= |v| && k <= ParamCount(|p|) && c < |p|
    ensures UnpackGPrefix(p, v, k)[c]
         == if c == 0 then (if 0 < k then p[0].(g_l := v[0]) else p[0])
            else p[c].(g_c := if 2 * c - 1 < k then v[2 * c - 1] else p[c].g_c,
                       g_l := if 2 * c < k then v[2 * c] else p[c].g_l)
  {
    if k > 0 {
      UnpackGPrefixCell(p, v, k - 1, c);
    }
  }

  /** Writing every slot is the whole write-back. */
  lemma UnpackGPrefixAll(p: seq<NodeParams>, v: seq<real>)
    requires ParamCount(|p|) <= |v|
    ensures UnpackGPrefix(p, v, ParamCount(|p|)) == UnpackG(p, v)
  {
    forall c | 0 <= c < |p|
      ensures UnpackGPrefix(p, v, ParamCount(|p|))[c] == UnpackG(p, v)[c]
    {
      UnpackGPrefixCell(p, v, ParamCount(|p|), c);
    }
  }

  /** The matrix `sum_k v[k] * S[:, :, k]` that a parameter vector stands for. */
  function Reconstruct(parent: seq<int>, v: seq<real>): (g: seq<seq<real>>)
    requires IsTree(parent) && |v| == ParamCount(|parent|)
    ensures IsSquare(g, |parent|)
    ensures forall i, j :: 0 <= i < |parent| && 0 <= j < |parent| ==> g[i][j] == g[j][i]
  {
    var n := |parent|;
    var s := StructureTensor(parent);
    StructureSymmetric(parent);
    seq(n, i requires 0 <= i < n => seq(n, j requires 0 <= j < n => Dot(s[i][j], v)))
  }

  /** The same parameters with the root's (unused) coupling set to zero. */
  function ClearRootCoupling(p: seq<NodeParams>): (r: seq<NodeParams>)
    ensures |r| == |p|
    ensures forall c :: 0 < c < |p| ==> r[c] == p[c]
    ensures |p| > 0 ==> r[0] == p[0].(g_c := 0.0)
  {
    if |p| == 0 then p else [p[0].(g_c := 0.0)] + p[1..]
  }

  // --------------------------------------------------------- round trips

  /** Reading the vector back after writing it gives the vector. */
  lemma PackUnpack(p: seq<NodeParams>, v: seq<real>)
    requires |v| >= ParamCount(|p|)
    ensures VecG(UnpackG(p, v)) == v[..ParamCount(|p|)]
  {
  }

  /** After a partial write-back the vector read from the nodes holds the
      written slots of `v` followed by the nodes' old values. */
  lemma {:induction false} PackUnpackPrefix(p: seq<NodeParams>, v: seq<real>, k: nat)
    requires k <= |v| && k <= ParamCount(|p|)
    ensures VecG(UnpackGPrefix(p, v, k)) == v[..k] + VecG(p)[k..]
  {
    if k == 0 {
      assert v[..0] + VecG(p)[0..] == VecG(p);
    } else {
      PackUnpackPrefix(p, v, k - 1);
      var q := UnpackGPrefix(p, v, k - 1);
      var c := SlotOwner(k - 1);
      if c > 0 && k - 1 == 2 * c - 1 {
        VecGSetCoupling(q, c, v[k - 1]);
      } else {
        VecGSetLeak(q, c, v[k - 1]);
      }
      SpliceStep(v, VecG(p), k);
    }
  }

  /** Setting one node's coupling changes only slot `2c-1`. */
  lemma VecGSetCoupling(q: seq<NodeParams>, c: nat, x: real)
    requires 0 < c < |q|
    ensures VecG(q[c := q[c].(g_c := x)]) == VecG(q)[2 * c - 1 := x]
  {
    var r := q[c := q[c].(g_c := x)];
    forall j | 0 <= j < ParamCount(|q|)
      ensures VecG(r)[j] == VecG(q)[2 * c - 1 := x][j]
    {
      var d := SlotOwner(j);
      if j == 2 * c - 1 {
        VecGSlots(r, c);
      } else if d != c {
        assert VecG(r)[j] == VecG(q)[j];
      } else {
        VecGSlots(r, c);
        VecGSlots(q, c);
      }
    }
  }

  /** Setting one node's leak changes only its leak slot. */
  lemma VecGSetLeak(q: seq<NodeParams>, c: nat, x: real)
    requires c < |q|
    ensures VecG(q[c := q[c].(g_l := x)]) == VecG(q)[(if c == 0 then 0 else 2 * c) := x]
  {
    var r := q[c := q[c].(g_l := x)];
    var s := if c == 0 then 0 else 2 * c;
    forall j | 0 <= j < ParamCount(|q|)
      ensures VecG(r)[j] == VecG(q)[s := x][j]
    {
      var d := SlotOwner(j);
      if d != c {
        assert VecG(r)[j] == VecG(q)[j];
      } else if c > 0 {
        VecGSlots(r, c);
        VecGSlots(q, c);
      }
    }
  }

  /** Writing back the vector read from the nodes changes nothing. */
  lemma UnpackPack(p: seq<NodeParams>)
    ensures UnpackG(p, VecG(p)) == p
  {
    var v := VecG(p);
    forall c | 0 < c < |p|
      ensures v[2 * c - 1] == p[c].g_c && v[2 * c] == p[c].g_l
    {
      VecGSlots(p, c);
    }
    UnpackSame(p, v);
  }

  /** Writing back a vector that holds the nodes' own values changes nothing. */
  lemma UnpackSame(p: seq<NodeParams>, v: seq<real>)
    requires |v| >= ParamCount(|p|)
    requires |p| > 0 ==> v[0] == p[0].g_l
    requires forall c :: 0 < c < |p| ==> v[2 * c - 1] == p[c].g_c && v[2 * c] == p[c].g_l
    ensures UnpackG(p, v) == p
  {
  }

  /** Node `c`'s coupling sits in slot `2c-1` and its leak in slot `2c`. */
  lemma VecGSlots(p: seq<NodeParams>, c: nat)
    requires 0 < c < |p|
    ensures VecG(p)[2 * c - 1] == p[c].g_c && VecG(p)[2 * c] == p[c].g_l
  {
    assert (2 * c - 1) % 2 == 1 && SlotOwner(2 * c - 1) == c;
    assert (2 * c) % 2 == 0 && SlotOwner(2 * c) == c;
  }

  // ------------------------------------------------------ reconstruction

  lemma ChildCouplingIgnoresRoot(parent: seq<int>, p: seq<NodeParams>, m: nat, i: int)
    requires ParamsFor(parent, p) && m <= |parent|
    ensures ChildCoupling(parent, ClearRootCoupling(p), m, i) == ChildCoupling(parent, p, m, i)
  {
    if m > 0 {
      ChildCouplingIgnoresRoot(parent, p, m - 1, i);
    }
  }

  /** The root's coupling shows up on cell `(0, 0)` and nowhere else. */
  lemma RootCouplingCell(parent: seq<int>, p: seq<NodeParams>, i: nat, j: nat)
    requires ParamsFor(parent, p) && i < |parent| && j < |parent|
    ensures Entry(parent, p, i, j)
         == Entry(parent, ClearRootCoupling(p), i, j) + (if i == 0 && j == 0 then p[0].g_c else 0.0)
  {
    ChildCouplingIgnoresRoot(parent, p, |parent|, i);
  }

  /** The first `ParamCount(m)` slots reconstruct the matrix of nodes
      `0 .. m-1`, root coupling left out. */
  lemma {:induction false} ReconstructUpTo(parent: seq<int>, p: seq<NodeParams>, m: nat, i: nat, j: nat)
    requires ParamsFor(parent, p) && 0 < m <= |parent| && i < |parent| && j < |parent|
    ensures DotTo(StructureSlice(parent, i, j), VecG(p), ParamCount(m))
         == EntryUpTo(parent, ClearRootCoupling(p), m, i, j)
  {
    if m == 1 {
      RootSlot(parent, p, i, j);
      assert ParamCount(m) == 1;
    } else {
      ReconstructUpTo(parent, p, m - 1, i, j);
      ReconstructStep(parent, p, m - 1, i, j);
    }
  }

  /** If the first `ParamCount(c)` slots reconstruct nodes `0 .. c-1`, then
      the first `ParamCount(c+1)` reconstruct nodes `0 .. c`. */
  lemma ReconstructStep(parent: seq<int>, p: seq<NodeParams>, c: nat, i: nat, j: nat)
    requires ParamsFor(parent, p) && 0 < c < |parent| && i < |parent| && j < |parent|
    requires DotTo(StructureSlice(parent, i, j), VecG(p), ParamCount(c))
          == EntryUpTo(parent, ClearRootCoupling(p), c, i, j)
    ensures DotTo(StructureSlice(parent, i, j), VecG(p), ParamCount(c + 1))
         == EntryUpTo(parent, ClearRootCoupling(p), c + 1, i, j)
  {
    var s := StructureSlice(parent, i, j);
    var v := VecG(p);
    var p0 := ClearRootCoupling(p);
    AccumulateStep(parent, p0, c, i, j);
    SlotPair(parent, p, c, i, j);
    assert ParamCount(c + 1) == 2 * c + 1 && ParamCount(c) == 2 * c - 1;
    var before := DotTo(s, v, 2 * c - 1);
    var after := DotTo(s, v, 2 * c + 1);
    var step := Contribution(parent, p0, c, i, j);
    assert before == EntryUpTo(parent, p0, c, i, j);
    assert after == before + step;
    assert EntryUpTo(parent, p0, c + 1, i, j) == EntryUpTo(parent, p0, c, i, j) + step;
    assert after == EntryUpTo(parent, p0, c + 1, i, j);
  }

  /** Slot 0 reconstructs the matrix of the root alone. */
  lemma RootSlot(parent: seq<int>, p: seq<NodeParams>, i: nat, j: nat)
    requires ParamsFor(parent, p) && 0 < |parent| && i < |parent| && j < |parent|
    ensures DotTo(StructureSlice(parent, i, j), VecG(p), 1)
         == EntryUpTo(parent, ClearRootCoupling(p), 1, i, j)
  {
    var s := StructureSlice(parent, i, j);
    var v := VecG(p);
    var p0 := ClearRootCoupling(p);
    assert DotTo(s, v, 1) == s[0] * v[0];
    assert ChildCoupling(parent, p0, 1, i) == 0.0;
    if i == 0 && j == 0 {
      assert s[0] == 1.0;
    } else {
      assert s[0] == 0.0;
    }
  }

  /** Node `c`'s two slots together contribute what visiting `c` adds. */
  lemma SlotPair(parent: seq<int>, p: seq<NodeParams>, c: nat, i: nat, j: nat)
    requires ParamsFor(parent, p) && 0 < c < |parent| && i < |parent| && j < |parent|
    ensures DotTo(StructureSlice(parent, i, j), VecG(p), 2 * c + 1)
         == DotTo(StructureSlice(parent, i, j), VecG(p), 2 * c - 1)
          + Contribution(parent, ClearRootCoupling(p), c, i, j)
  {
    var s := StructureSlice(parent, i, j);
    var v := VecG(p);
    var p0 := ClearRootCoupling(p);
    DotToStepTwo(s, v, 2 * c - 1);
    assert SlotOwner(2 * c - 1) == c && SlotOwner(2 * c) == c;
    assert v[2 * c - 1] == p0[c].g_c && v[2 * c] == p0[c].g_l;
    assert s[2 * c - 1] == StructureEntry(parent, i, j, 2 * c - 1);
    assert s[2 * c] == StructureEntry(parent, i, j, 2 * c);
  }

  /** Reconstruction identity: `sum_k v[k] * S[:, :, k]` with `v = VecG(p)`
      is the conductance matrix of `p` with the root's coupling left out. */
  lemma Reconstruction(parent: seq<int>, p: seq<NodeParams>)
    requires ParamsFor(parent, p)
    ensures Reconstruct(parent, VecG(p)) == ConductanceMatrix(parent, ClearRootCoupling(p))
  {
    var n := |parent|;
    var r := Reconstruct(parent, VecG(p));
    var g := ConductanceMatrix(parent, ClearRootCoupling(p));
    forall i | 0 <= i < n
      ensures r[i] == g[i]
    {
      forall j | 0 <= j < n
        ensures r[i][j] == g[i][j]
      {
        ReconstructUpTo(parent, p, n, i, j);
      }
    }
  }

  /** The reconstruction gives back the builder's own matrix exactly when
      the root carries no coupling conductance. */
  lemma ReconstructionIff(parent: seq<int>, p: seq<NodeParams>)
    requires ParamsFor(parent, p)
    ensures Reconstruct(parent, VecG(p)) == ConductanceMatrix(parent, p)
        <==> (|p| == 0 || p[0].g_c == 0.0)
  {
    var n := |parent|;
    Reconstruction(parent, p);
    var g := ConductanceMatrix(parent, p);
    var g0 := ConductanceMatrix(parent, ClearRootCoupling(p));
    if n > 0 {
      RootCouplingCell(parent, p, 0, 0);
      if p[0].g_c == 0.0 {
        forall i | 0 <= i < n
          ensures g[i] == g0[i]
        {
          forall j | 0 <= j < n
            ensures g[i][j] == g0[i][j]
          {
            RootCouplingCell(parent, p, i, j);
          }
        }
      } else {
        assert g[0][0] != g0[0][0];
      }
    }
  }

  /** The smallest case where the builder and the structure tensor disagree:
      a single root with coupling 1 and leak 0 gets conductance matrix
      `[[1]]`, while its parameter vector reconstructs `[[0]]`. */
  lemma RootCouplingCounterexample()
    ensures ConductanceMatrix([NoParent], [NodeParams(1.0, 1.0, 0.0)]) == [[1.0]]
    ensures Reconstruct([NoParent], VecG([NodeParams(1.0, 1.0, 0.0)])) == [[0.0]]
  {
    var p := [NodeParams(1.0, 1.0, 0.0)];
    assert ChildCoupling([NoParent], p, 1, 0) == 0.0;
    assert Entry([NoParent], p, 0, 0) == 1.0;
    ReconstructUpTo([NoParent], p, 1, 0, 0);
    assert ChildCoupling([NoParent], ClearRootCoupling(p), 1, 0) == 0.0;
    assert Reconstruct([NoParent], VecG(p))[0] == [0.0];
    assert ConductanceMatrix([NoParent], p)[0] == [1.0];
  }

  // ------------------------------------------------------ identifiability

  /** Two parameter lists have the same flat vector exactly when they agree
      on every leak and on every coupling except the root's. */
  lemma VecGAgree(q: seq<NodeParams>, r: seq<NodeParams>)
    requires |q| == |r|
    ensures VecG(q) == VecG(r)
        <==> forall c :: 0 <= c < |q| ==> q[c].g_l == r[c].g_l && (c > 0 ==> q[c].g_c == r[c].g_c)
  {
    if VecG(q) == VecG(r) {
      forall c | 0 <= c < |q|
        ensures q[c].g_l == r[c].g_l && (c > 0 ==> q[c].g_c == r[c].g_c)
      {
        if c == 0 {
          assert VecG(q)[0] == q[0].g_l && VecG(r)[0] == r[0].g_l;
        } else {
          VecGSlots(q, c);
          VecGSlots(r, c);
        }
      }
    }
  }

  /** The conductance matrix determines the parameters it is built from:
      row sums give the leaks and the cell of a node and its parent gives
      the node's coupling, once the root's couplings agree. */
  lemma ConductanceDetermines(parent: seq<int>, q: seq<NodeParams>, r: seq<NodeParams>)
    requires ParamsFor(parent, q) && ParamsFor(parent, r)
    requires |q| > 0 ==> q[0].g_c == r[0].g_c
    requires ConductanceMatrix(parent, q) == ConductanceMatrix(parent, r)
    ensures forall c :: 0 <= c < |q| ==> q[c].g_l == r[c].g_l && (c > 0 ==> q[c].g_c == r[c].g_c)
  {
    forall c | 0 <= c < |q|
      ensures q[c].g_l == r[c].g_l && (c > 0 ==> q[c].g_c == r[c].g_c)
    {
      RowSum(parent, q, c);
      RowSum(parent, r, c);
      if c > 0 {
        OffDiagonal(parent, q, c, parent[c]);
        OffDiagonal(parent, r, c, parent[c]);
        assert ConductanceMatrix(parent, q)[c][parent[c]] == ConductanceMatrix(parent, r)[c][parent[c]];
      }
    }
  }

  /** The structure tensor loses nothing: different parameter vectors stand
      for different matrices. */
  lemma ReconstructInjective(parent: seq<int>, v: seq<real>, w: seq<real>)
    requires IsTree(parent) && |v| == ParamCount(|parent|) && |w| == ParamCount(|parent|)
    ensures Reconstruct(parent, v) == Reconstruct(parent, w) <==> v == w
  {
    if Reconstruct(parent, v) == Reconstruct(parent, w) {
      var n := |parent|;
      var p0 := seq(n, c => NodeParams(0.0, 0.0, 0.0));
      var qv := UnpackG(p0, v);
      var qw := UnpackG(p0, w);
      PackUnpack(p0, v);
      PackUnpack(p0, w);
      assert v[..ParamCount(n)] == v && w[..ParamCount(n)] == w;
      Reconstruction(parent, qv);
      Reconstruction(parent, qw);
      ConductanceDetermines(parent, ClearRootCoupling(qv), ClearRootCoupling(qw));
      VecGAgree(qv, qw);
    }
  }

  // ----------------------------------------------------------- the fit

  /** `einsum('ij,jkl->ikl', z, S)`: cell `(i, k, l)` is
      `sum_j z[i][j] * S[j][k][l]`. */
  function Features(z: seq<seq<real>>, s: seq<seq<seq<real>>>, w: nat): (f: seq<seq<seq<real>>>)
    requires |s| == |z| && RowsOfLength(z, |z|)
    requires forall j :: 0 <= j < |s| ==> |s[j]| == |z| && RowsOfLength(s[j], w)
    ensures |f| == |z| && forall i :: 0 <= i < |z| ==> |f[i]| == |z| && RowsOfLength(f[i], w)
  {
    var n := |z|;
    seq(n, i requires 0 <= i < n =>
      seq(n, k requires 0 <= k < n =>
        seq(w, l requires 0 <= l < w =>
          FiberInRange(s, w, k, l);
          Dot(z[i], Fiber(s, k, l)))))
  }

  /** The feature matrix of `computeG`: the feature tensor with its first two
      axes merged, so that row `i * n + k` is feature row `(i, k)`, with one
      column per parameter slot. */
  function FeatureMatrix(z: seq<seq<real>>, parent: seq<int>): (a: seq<seq<real>>)
    requires IsTree(parent) && IsSquare(z, |parent|)
    ensures RowsOfLength(a, ParamCount(|parent|))
    ensures |a| == RowMajor(|parent|, 0, |parent|)
    ensures forall i, k :: 0 <= i < |parent| && 0 <= k < |parent| ==> RowMajor(i, k, |parent|) < |a|
    ensures forall i, k :: 0 <= i < |parent| && 0 <= k < |parent| ==>
              a[RowMajor(i, k, |parent|)] == Features(z, StructureTensor(parent), ParamCount(|parent|))[i][k]
  {
    var f := Features(z, StructureTensor(parent), ParamCount(|parent|));
    FlattenRows(f, ParamCount(|parent|));
    FlattenIndex(f, |parent|);
    Flatten(f)
  }

  /** The target vector of `computeG`: the identity matrix flattened, so that
      entry `i * n + k` is 1 on the diagonal and 0 elsewhere. */
  function TargetVector(n: nat): (t: seq<real>)
    ensures |t| == RowMajor(n, 0, n)
    ensures forall i, k :: 0 <= i < n && 0 <= k < n ==> RowMajor(i, k, n) < |t|
    ensures forall i, k :: 0 <= i < n && 0 <= k < n ==> t[RowMajor(i, k, n)] == if i == k then 1.0 else 0.0
  {
    FlattenIndex(Identity(n), n);
    Flatten(Identity(n))
  }

  /** One row of the system: row `(i, k)` applied to `v` is cell `(i, k)` of
      `z` times the matrix that `v` stands for. */
  lemma FeatureRow(z: seq<seq<real>>, parent: seq<int>, v: seq<real>, i: nat, k: nat)
    requires IsTree(parent) && IsSquare(z, |parent|) && |v| == ParamCount(|parent|)
    requires i < |parent| && k < |parent|
    ensures Dot(Features(z, StructureTensor(parent), |v|)[i][k], v)
         == MatMul(z, Reconstruct(parent, v), |parent|)[i][k]
  {
    var n := |parent|;
    var s := StructureTensor(parent);
    var t := seq(n, j requires 0 <= j < n => s[j][k]);
    var r := Reconstruct(parent, v);
    var u := Column(r, k);
    assert Features(z, s, |v|)[i][k] == ColumnDots(z[i], t, |v|, n) by {
      forall l | 0 <= l < |v|
        ensures Column(t, l) == Fiber(s, k, l)
      {
      }
    }
    DotSwap(z[i], t, v, u, n);
  }

  /** A parameter vector solves the least-squares system of `computeG`
      exactly if and only if `z` times the conductance matrix it stands for
      is the identity. */
  lemma FitExact(z: seq<seq<real>>, parent: seq<int>, v: seq<real>)
    requires IsTree(parent) && IsSquare(z, |parent|) && |v| == ParamCount(|parent|)
    ensures MatVec(FeatureMatrix(z, parent), v) == TargetVector(|parent|)
        <==> MatMul(z, Reconstruct(parent, v), |parent|) == Identity(|parent|)
  {
    var n := |parent|;
    var f := Features(z, StructureTensor(parent), |v|);
    var id := Identity(n);
    var prod := MatMul(z, Reconstruct(parent, v), n);
    var blocks := seq(n, i requires 0 <= i < n => MatVec(f[i], v));
    MatVecFlatten(f, v);
    forall i | 0 <= i < n
      ensures blocks[i] == prod[i]
    {
      forall k | 0 <= k < n
        ensures blocks[i][k] == prod[i][k]
      {
        FeatureRow(z, parent, v, i, k);
      }
    }
    assert blocks == prod;
    if MatVec(FeatureMatrix(z, parent), v) == TargetVector(n) {
      FlattenInjective(blocks, id);
    }
  }

  /** What an exact solve means for the tree: writing back a vector that
      solves the system of `computeG` leaves a tree whose conductance matrix,
      once the root's own coupling is taken off cell `(0, 0)`, is a right
      inverse of `z`, and the converse holds as well. */
  lemma FitWriteBackAnyRoot(z: seq<seq<real>>, parent: seq<int>, p: seq<NodeParams>, v: seq<real>)
    requires ParamsFor(parent, p) && IsSquare(z, |parent|) && |v| == ParamCount(|parent|)
    ensures MatVec(FeatureMatrix(z, parent), v) == TargetVector(|parent|)
        <==> MatMul(z, ConductanceMatrix(parent, ClearRootCoupling(UnpackG(p, v))), |parent|) == Identity(|parent|)
  {
    var q := UnpackG(p, v);
    PackUnpack(p, v);
    assert v[..ParamCount(|p|)] == v;
    Reconstruction(parent, q);
    FitExact(z, parent, v);
  }

  /** What an exact solve means for the tree: when the root's coupling is
      zero, writing back a vector that solves the system of `computeG` leaves
      a tree whose conductance matrix is a right inverse of `z`, and the
      converse holds as well. */
  lemma FitWriteBack(z: seq<seq<real>>, parent: seq<int>, p: seq<NodeParams>, v: seq<real>)
    requires ParamsFor(parent, p) && IsSquare(z, |parent|) && |v| == ParamCount(|parent|)
    requires |p| == 0 || p[0].g_c == 0.0
    ensures MatVec(FeatureMatrix(z, parent), v) == TargetVector(|parent|)
        <==> MatMul(z, ConductanceMatrix(parent, UnpackG(p, v)), |parent|) == Identity(|parent|)
  {
    var q := UnpackG(p, v);
    PackUnpack(p, v);
    assert v[..ParamCount(|p|)] == v;
    ReconstructionIff(parent, q);
    FitExact(z, parent, v);
  }

  /** An exact solve has only one answer when `z` is the inverse of a tree's
      conductance matrix (root coupling left out): a vector solves the
      system of `computeG` exactly if and only if it is that tree's flat
      conductance vector. */
  lemma FitIdentifies(z: seq<seq<real>>, parent: seq<int>, pTrue: seq<NodeParams>, v: seq<real>)
    requires ParamsFor(parent, pTrue) && IsSquare(z, |parent|) && |v| == ParamCount(|parent|)
    requires MatMul(z, ConductanceMatrix(parent, ClearRootCoupling(pTrue)), |parent|) == Identity(|parent|)
    requires MatMul(ConductanceMatrix(parent, ClearRootCoupling(pTrue)), z, |parent|) == Identity(|parent|)
    ensures MatVec(FeatureMatrix(z, parent), v) == TargetVector(|parent|) <==> v == VecG(pTrue)
  {
    var n := |parent|;
    var g := ConductanceMatrix(parent, ClearRootCoupling(pTrue));
    var r := Reconstruct(parent, v);
    FitExact(z, parent, v);
    Reconstruction(parent, pTrue);
    if MatMul(z, r, n) == Identity(n) {
      MatMulAssoc(g, z, r, n);
      MatMulIdentityLeft(r, n, n);
      MatMulIdentityRight(g, n);
      ReconstructInjective(parent, v, VecG(pTrue));
    }
  }

  /** The fit recovers the tree it was given: when `z` is the inverse of the
      conductance matrix of `pTrue` (root coupling left out), a vector solves
      the system of `computeG` exactly if and only if writing it back onto
      any nodes `p` restores every leak and every non-root coupling of
      `pTrue`. */
  lemma FitRecovers(z: seq<seq<real>>, parent: seq<int>, p: seq<NodeParams>, pTrue: seq<NodeParams>, v: seq<real>)
    requires ParamsFor(parent, pTrue) && ParamsFor(parent, p)
    requires IsSquare(z, |parent|) && |v| == ParamCount(|parent|)
    requires MatMul(z, ConductanceMatrix(parent, ClearRootCoupling(pTrue)), |parent|) == Identity(|parent|)
    requires MatMul(ConductanceMatrix(parent, ClearRootCoupling(pTrue)), z, |parent|) == Identity(|parent|)
    ensures MatVec(FeatureMatrix(z, parent), v) == TargetVector(|parent|)
        <==> forall c :: 0 <= c < |parent| ==>
               UnpackG(p, v)[c].g_l == pTrue[c].g_l && (c > 0 ==> UnpackG(p, v)[c].g_c == pTrue[c].g_c)
  {
    FitIdentifies(z, parent, pTrue, v);
    PackUnpack(p, v);
    assert v[..ParamCount(|p|)] == v;
    VecGAgree(UnpackG(p, v), pTrue);
  }
}
