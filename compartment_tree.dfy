/** The compartment tree as mutable objects (compartmenttree.py,
    `CompartmentNode` and `CompartmentTree`): nodes whose parameters the
    fitting methods overwrite in place, the matrix builders that fill numpy
    arrays cell by cell, and the two fits that tie them together. The least
    squares solver is a parameter: only the shape of its answer is assumed. */
module CompartmentTrees {
  import opened ComplexNumbers
  import opened LinAlg
  import opened Topology
  import opened Conductance
  import opened SystemMatrix
  import opened ConductanceFit
  import opened CapacitanceFit
  import opened Wrappers

  /** One compartment: its index in the tree and its three parameters. */
  class CompartmentNode {
    const index: nat
    var ca: real
    var g_c: real
    var g_l: real

    /** A new node, with the defaults of `CompartmentNode.__init__`:
        capacitance 1, coupling 0, leak 0.01. */
    constructor (index: nat, ca: real := 1.0, g_c: real := 0.0, g_l: real := 0.01)
      ensures this.index == index
      ensures this.ca == ca && this.g_c == g_c && this.g_l == g_l
    {
      this.index := index;
      this.ca := ca;
      this.g_c := g_c;
      this.g_l := g_l;
    }

    function Params(): NodeParams
      reads this
    {
      NodeParams(ca, g_c, g_l)
    }
  }

  /** The result of `calcSystemMatrix`: the real conductance matrix when no
      frequencies are given, one complex matrix per frequency otherwise. */
  datatype SystemMatrices = Steady(g: array2<real>) | PerFrequency(m: array3<Complex>)

  /** A tree of compartments. Iterating over the tree visits `nodes` in order,
      so node `c` has index `c` and its parent is `nodes[parent[c]]`. */
  class CompartmentTree {
    const parent: seq<int>
    const nodes: seq<CompartmentNode>

    ghost predicate Valid()
    {
      && IsTree(parent)
      && |nodes| == |parent|
      && forall c :: 0 <= c < |nodes| ==> nodes[c].index == c
    }

    /** The parameters of all nodes, in iteration order. */
    function Params(): (p: seq<NodeParams>)
      reads nodes
      ensures |p| == |nodes|
      ensures forall c :: 0 <= c < |nodes| ==> p[c] == NodeParams(nodes[c].ca, nodes[c].g_c, nodes[c].g_l)
    {
      seq(|nodes|, c requires 0 <= c < |nodes| reads nodes => nodes[c].Params())
    }

    /** A tree of the given shape whose nodes carry the given parameters. */
    constructor (parent: seq<int>, p: seq<NodeParams>)
      requires ParamsFor(parent, p)
      ensures Valid() && this.parent == parent && Params() == p
      ensures forall c :: 0 <= c < |nodes| ==> fresh(nodes[c])
    {
      var ns: seq<CompartmentNode> := [];
      for c := 0 to |p|
        invariant |ns| == c
        invariant forall d :: 0 <= d < c ==> fresh(ns[d]) && ns[d].index == d && ns[d].Params() == p[d]
      {
        var node := new CompartmentNode(c, p[c].ca, p[c].g_c, p[c].g_l);
        ns := ns + [node];
      }
      this.parent := parent;
      this.nodes := ns;
    }

    // ------------------------------------------------------------ matrices

    /** `calcConductanceMatrix`: start from zeros and let every node add its
        leak and coupling to its own diagonal and, when it has a parent, its
        coupling to the parent's diagonal and minus it to the two cells that
        join them. */
    method CalcConductanceMatrix() returns (g: array2<real>)
      requires Valid()
      ensures fresh(g) && g.Length0 == |parent| && g.Length1 == |parent|
      ensures Rows2(g) == ConductanceMatrix(parent, Params())
    {
      var n := |nodes|;
      ghost var p := Params();
      g := new real[n, n]((i, j) => 0.0);
      for m := 0 to n
        invariant forall i, j :: 0 <= i < n && 0 <= j < n ==> g[i, j] == EntryUpTo(parent, p, m, i, j)
      {
        var node := nodes[m];
        var ii := node.index;
        label before:
        g[ii, ii] := g[ii, ii] + node.g_l + node.g_c;
        if parent[m] != NoParent {
          var jj := parent[m];
          g[jj, jj] := g[jj, jj] + node.g_c;
          g[ii, jj] := g[ii, jj] - node.g_c;
          g[jj, ii] := g[jj, ii] - node.g_c;
        }
        forall i, j | 0 <= i < n && 0 <= j < n
          ensures g[i, j] == EntryUpTo(parent, p, m + 1, i, j)
        {
          assert g[i, j] == old@before(g[i, j]) + Contribution(parent, p, m, i, j);
          AccumulateStep(parent, p, m, i, j);
        }
      }
      SquareSeq(Rows2(g), ConductanceMatrix(parent, p), n);
    }

    /** `calcSystemMatrix`: without frequencies the conductance matrix; with
        them, one copy of it per frequency, taken as complex, with the
        frequency times the node's capacitance added to each node's
        diagonal cell. */
    method CalcSystemMatrix(freqs: Option<seq<Complex>>) returns (r: SystemMatrices)
      requires Valid()
      ensures freqs.None? ==> r.Steady? && fresh(r.g) && Rows2(r.g) == ConductanceMatrix(parent, Params())
      ensures freqs.Some? ==> r.PerFrequency? && fresh(r.m)
      ensures freqs.Some? ==> r.m.Length0 == |freqs.value| && r.m.Length1 == |parent| && r.m.Length2 == |parent|
      ensures freqs.Some? ==> forall o, i, j :: 0 <= o < |freqs.value| && 0 <= i < |parent| && 0 <= j < |parent| ==>
                r.m[o, i, j] == SystemSlice(parent, Params(), freqs.value[o])[i][j]
    {
      var g := CalcConductanceMatrix();
      if freqs.None? {
        return Steady(g);
      }
      var fs := freqs.value;
      var n := |nodes|;
      ghost var p := Params();
      var m := new Complex[|fs|, n, n]((o, i, j) reads g requires 0 <= i < n && 0 <= j < n => FromReal(g[i, j]));
      for c := 0 to n
        invariant forall o, i, j :: 0 <= o < |fs| && 0 <= i < n && 0 <= j < n ==>
          m[o, i, j] == if i == j && i < c then SystemCell(parent, p, fs[o], i, j) else FromReal(Entry(parent, p, i, j))
      {
        var node := nodes[c];
        var ii := node.index;
        for o := 0 to |fs|
          invariant forall o', i, j :: 0 <= o' < |fs| && 0 <= i < n && 0 <= j < n ==>
            m[o', i, j] == if i == j && (i < c || (i == c && o' < o)) then SystemCell(parent, p, fs[o'], i, j)
                           else FromReal(Entry(parent, p, i, j))
        {
          m[o, ii, ii] := Add(m[o, ii, ii], Scale(fs[o], node.ca));
        }
      }
      r := PerFrequency(m);
    }

    // ------------------------------------------------- conductance fit

    /** `_toVecG`: the root contributes its leak, every other node its
        coupling and then its leak. */
    method ToVecG() returns (v: seq<real>)
      requires Valid()
      ensures v == VecG(Params())
    {
      ghost var p := Params();
      v := [];
      for m := 0 to |nodes|
        invariant |v| == ParamCount(m)
        invariant forall k :: 0 <= k < |v| ==> v[k] == VecG(p)[k]
      {
        var node := nodes[m];
        if parent[m] == NoParent {
          v := v + [node.g_l];
        } else {
          assert SlotOwner(2 * m - 1) == m && SlotOwner(2 * m) == m;
          v := v + [node.g_c, node.g_l];
        }
      }
    }

    /** `_toStructureTensorG`: a zero tensor with one slot per entry of the
        conductance vector, into which every node writes the matrices of a
        unit leak and, when it has a parent, of a unit coupling. */
    method ToStructureTensorG() returns (s: array3<real>)
      requires Valid()
      ensures fresh(s)
      ensures s.Length0 == |parent| && s.Length1 == |parent| && s.Length2 == ParamCount(|parent|)
      ensures Rows3(s) == StructureTensor(parent)
    {
      var v := ToVecG();
      var n := |nodes|;
      s := new real[n, n, |v|]((i, j, k) => 0.0);
      for m := 0 to n
        invariant forall i, j, k :: 0 <= i < n && 0 <= j < n && 0 <= k < |v| ==>
          s[i, j, k] == if k < ParamCount(m) then StructureEntry(parent, i, j, k) else 0.0
      {
        var ii := nodes[m].index;
        label before:
        if parent[m] == NoParent {
          s[0, 0, 0] := s[0, 0, 0] + 1.0;
          forall i, j, k | 0 <= i < n && 0 <= j < n && 0 <= k < |v|
            ensures s[i, j, k] == if k < ParamCount(m + 1) then StructureEntry(parent, i, j, k) else 0.0
          {
            assert ParamCount(m + 1) == 1;
          }
        } else {
          var jj := parent[m];
          AddNodeSlots(s, ii, jj);
          forall i, j, k | 0 <= i < n && 0 <= j < n && 0 <= k < |v|
            ensures s[i, j, k] == if k < ParamCount(m + 1) then StructureEntry(parent, i, j, k) else 0.0
          {
            if 2 * m - 1 <= k <= 2 * m {
              assert SlotOwner(k) == m;
            }
          }
        }
      }
      CubeSeq(Rows3(s), StructureTensor(parent), n, |v|);
    }

    /** After a write to node `m` alone, the parameters are the old ones with
        entry `m` replaced. */
    twostate lemma OneNodeWritten(m: nat)
      requires Valid() && m < |nodes|
      requires forall c :: 0 <= c < |nodes| && c != m ==> unchanged(nodes[c])
      ensures Params() == old(Params())[m := nodes[m].Params()]
    {
      forall c | 0 <= c < |nodes| && c != m
        ensures nodes[c] != nodes[m]
      {
        assert nodes[c].index != nodes[m].index;
      }
    }

    /** `_toTreeG`: node by node, the root's leak from slot 0 and every other
        node's coupling, then its leak, from slots `2c-1` and `2c`. A vector
        too short stops the write-back at the first slot past its end (in
        `_toTreeG` the read `g_vec[...]` raises `IndexError` there): every
        slot before it has been written, including a coupling whose leak
        slot is missing. */
    method ToTreeG(gVec: seq<real>) returns (ok: bool)
      requires Valid()
      modifies nodes
      ensures ok <==> |gVec| >= ParamCount(|parent|)
      ensures Params() == UnpackGPrefix(old(Params()), gVec, if ok then ParamCount(|parent|) else |gVec|)
      ensures ok ==> Params() == UnpackG(old(Params()), gVec)
    {
      ghost var p := Params();
      var n := |nodes|;
      for m := 0 to n
        invariant ParamCount(m) <= |gVec|
        invariant Params() == UnpackGPrefix(p, gVec, ParamCount(m))
      {
        ok := WriteNodeG(m, gVec, p);
        if !ok {
          return;
        }
      }
      UnpackGPrefixAll(p, gVec);
      ok := true;
    }

    /** One pass of the loop of `_toTreeG`: node `m` takes its slots from
        `gVec` for as long as `gVec` reaches. */
    method WriteNodeG(m: nat, gVec: seq<real>, ghost p: seq<NodeParams>) returns (ok: bool)
      requires Valid() && m < |nodes| && |p| == |nodes|
      requires ParamCount(m) <= |gVec| && Params() == UnpackGPrefix(p, gVec, ParamCount(m))
      modifies nodes[m]
      ensures ok <==> ParamCount(m + 1) <= |gVec|
      ensures Params() == UnpackGPrefix(p, gVec, if ok then ParamCount(m + 1) else |gVec|)
    {
      var node := nodes[m];
      ghost var k := ParamCount(m);
      if parent[m] == NoParent {
        if |gVec| <= m {
          return false;
        }
        label before:
        node.g_l := gVec[m];
        OneNodeWritten@before(m);
        assert Params() == UnpackGPrefix(p, gVec, k + 1);
      } else {
        if |gVec| <= 2 * m - 1 {
          assert |gVec| == k;
          return false;
        }
        label before:
        node.g_c := gVec[2 * m - 1];
        OneNodeWritten@before(m);
        assert Params() == UnpackGPrefix(p, gVec, k + 1);
        if |gVec| <= 2 * m {
          assert |gVec| == k + 1;
          return false;
        }
        label coupled:
        node.g_l := gVec[2 * m];
        OneNodeWritten@coupled(m);
        assert Params() == UnpackGPrefix(p, gVec, k + 2);
      }
      ok := true;
    }

    /** `computeG`: build the feature matrix from `z` and the structure
        tensor, solve the least-squares problem against the flattened
        identity, and write the solution back onto the nodes. An exact
        solution makes the new conductance matrix, without the root's own
        coupling on cell `(0, 0)`, a right inverse of `z`. */
    method ComputeG(z: seq<seq<real>>, lstsq: (seq<seq<real>>, seq<real>) -> seq<real>)
      requires Valid() && IsSquare(z, |parent|)
      requires |lstsq(FeatureMatrix(z, parent), TargetVector(|parent|))| == ParamCount(|parent|)
      modifies nodes
      ensures Params() == UnpackG(old(Params()), lstsq(FeatureMatrix(z, parent), TargetVector(|parent|)))
      ensures MatVec(FeatureMatrix(z, parent), lstsq(FeatureMatrix(z, parent), TargetVector(|parent|)))
                == TargetVector(|parent|)
          <==> MatMul(z, ConductanceMatrix(parent, ClearRootCoupling(Params())), |parent|) == Identity(|parent|)
      ensures old(|nodes| == 0 || nodes[0].g_c == 0.0) ==>
          (MatVec(FeatureMatrix(z, parent), lstsq(FeatureMatrix(z, parent), TargetVector(|parent|)))
             == TargetVector(|parent|)
           <==> MatMul(z, ConductanceMatrix(parent, Params()), |parent|) == Identity(|parent|))
    {
      var n := |nodes|;
      var s := ToStructureTensorG();
      assert Rows3(s) == StructureTensor(parent);
      var features := FeatureMatrix(z, parent);
      var target := TargetVector(n);
      var gVec := lstsq(features, target);
      var ok := ToTreeG(gVec);
      FitWriteBackAnyRoot(z, parent, old(Params()), gVec);
      if old(|nodes| == 0 || nodes[0].g_c == 0.0) {
        FitWriteBack(z, parent, old(Params()), gVec);
      }
    }

    // ------------------------------------------------- capacitance fit

    /** `_toStructureTensorC`: a zero tensor with one slot per node, into
        which every node writes the frequencies on its own diagonal cell. */
    method ToStructureTensorC(freqs: seq<Complex>) returns (s: array4<Complex>)
      requires Valid()
      ensures fresh(s)
      ensures s.Length0 == |freqs| && s.Length1 == |parent| && s.Length2 == |parent| && s.Length3 == |parent|
      ensures forall o, j, k, l :: 0 <= o < |freqs| && 0 <= j < |parent| && 0 <= k < |parent| && 0 <= l < |parent| ==>
                s[o, j, k, l] == StructureEntryC(freqs, o, j, k, l)
    {
      var n := |nodes|;
      var cv := VecC(Params());
      s := new Complex[|freqs|, n, n, |cv|]((o, j, k, l) => Zero);
      for m := 0 to n
        invariant forall o, j, k, l :: 0 <= o < |freqs| && 0 <= j < n && 0 <= k < n && 0 <= l < n ==>
          s[o, j, k, l] == if j == k && k == l && l < m then freqs[o] else Zero
      {
        var ii := nodes[m].index;
        for o := 0 to |freqs|
          invariant forall o', j, k, l :: 0 <= o' < |freqs| && 0 <= j < n && 0 <= k < n && 0 <= l < n ==>
            s[o', j, k, l] == if j == k && k == l && (l < m || (l == m && o' < o)) then freqs[o'] else Zero
        {
          s[o, ii, ii, ii] := Add(s[o, ii, ii, ii], freqs[o]);
        }
      }
    }

    /** `_toTreeC`: node `c`'s capacitance from slot `c`. A vector too short
        for node `c` stops the write-back there (in `_toTreeC` the read
        `c_vec[ii]` raises `IndexError`), with the nodes before `c` already
        written. */
    method ToTreeC(cVec: seq<real>) returns (ok: bool)
      requires Valid()
      modifies nodes
      ensures ok <==> |cVec| >= |parent|
      ensures Params() == UnpackCUpTo(old(Params()), cVec, if ok then |parent| else |cVec|)
      ensures ok ==> Params() == UnpackC(old(Params()), cVec)
    {
      ghost var p := Params();
      for m := 0 to |nodes|
        invariant m <= |cVec|
        invariant Params() == UnpackCUpTo(p, cVec, m)
      {
        if |cVec| <= m {
          return false;
        }
        nodes[m].ca := cVec[m];
        assert Params() == UnpackCUpTo(p, cVec, m + 1);
      }
      ok := true;
    }

    /** `computeC`: build the feature matrix from the impedance matrices and
        the capacitance structure tensor, the target from the identity minus
        the impedance matrices times the present conductance matrix, solve,
        and write the real part of the solution back onto the nodes. A real
        solution is exact if and only if every impedance matrix times the
        new system matrix at its frequency is the identity. */
    method ComputeC(freqs: seq<Complex>, zf: seq<seq<seq<Complex>>>,
                    lstsq: (seq<seq<Complex>>, seq<Complex>) -> seq<Complex>)
      requires Valid() && ImpedanceStack(zf, |freqs|, |parent|)
      requires |lstsq(FeatureMatrixC(freqs, zf, |parent|), TargetVectorC(ConductanceMatrix(parent, Params()), zf))| == |parent|
      modifies nodes
      ensures var x := lstsq(FeatureMatrixC(freqs, zf, |parent|),
                             TargetVectorC(ConductanceMatrix(parent, old(Params())), zf));
              Params() == UnpackC(old(Params()), RealParts(x))
      ensures var x := lstsq(FeatureMatrixC(freqs, zf, |parent|),
                             TargetVectorC(ConductanceMatrix(parent, old(Params())), zf));
              (forall l :: 0 <= l < |x| ==> x[l].im == 0.0) ==>
                (CMatVec(FeatureMatrixC(freqs, zf, |parent|), x) == TargetVectorC(ConductanceMatrix(parent, old(Params())), zf)
                 <==> forall o :: 0 <= o < |freqs| ==>
                        CMatMul(zf[o], SystemSlice(parent, Params(), freqs[o]), |parent|) == CIdentity(|parent|))
    {
      var n := |nodes|;
      ghost var p := Params();
      var s := ToStructureTensorC(freqs);
      assert forall o, j, k, l :: 0 <= o < |freqs| && 0 <= j < n && 0 <= k < n && 0 <= l < n ==>
               s[o, j, k, l] == StructureTensorC(freqs, n)[o][j][k][l];
      var features := FeatureMatrixC(freqs, zf, n);
      var g := CalcConductanceMatrix();
      var target := TargetVectorC(Rows2(g), zf);
      var x := lstsq(features, target);
      var cVec := RealParts(x);
      var ok := ToTreeC(cVec);
      FitExactC(parent, p, freqs, zf, cVec);
      LiftRealParts(x, cVec);
    }
  }

  /** What node `c` with parent `q` adds to slot `k` of the conductance
      structure tensor: in slot `2c-1` a unit coupling (+1 on `(c, c)` and
      `(q, q)`, -1 on `(c, q)` and `(q, c)`), in slot `2c` a unit leak on
      `(c, c)`. */
  function NodeSlotDelta(c: nat, q: nat, i: nat, j: nat, k: nat): real
  {
    if k == 2 * c - 1 then
      (if (i == c && j == c) || (i == q && j == q) then 1.0
       else if (i == c && j == q) || (i == q && j == c) then -1.0
       else 0.0)
    else if k == 2 * c && i == c && j == c then 1.0
    else 0.0
  }

  /** The five updates one non-root node makes to the conductance structure
      tensor (compartmenttree.py, `_toStructureTensorG`). */
  method AddNodeSlots(s: array3<real>, c: nat, q: nat)
    requires 0 <= q < c < s.Length0 && c < s.Length1 && 2 * c < s.Length2
    modifies s
    ensures forall i, j, k :: 0 <= i < s.Length0 && 0 <= j < s.Length1 && 0 <= k < s.Length2 ==>
              s[i, j, k] == old(s[i, j, k]) + NodeSlotDelta(c, q, i, j, k)
  {
    var kk := 2 * c - 1;
    s[c, q, kk] := s[c, q, kk] - 1.0;
    s[q, c, kk] := s[q, c, kk] - 1.0;
    s[q, q, kk] := s[q, q, kk] + 1.0;
    s[c, c, kk] := s[c, c, kk] + 1.0;
    s[c, c, kk + 1] := s[c, c, kk + 1] + 1.0;
  }

  /** The pattern one node adds is that node's own slots of the structure
      tensor, and nothing in any other node's slots. */
  lemma NodeSlotDeltaAgrees(parent: seq<int>, c: nat, i: nat, j: nat, k: nat)
    requires IsTree(parent) && 0 < c < |parent| && i < |parent| && j < |parent| && k < ParamCount(|parent|)
    ensures NodeSlotDelta(c, parent[c], i, j, k) == if SlotOwner(k) == c then StructureEntry(parent, i, j, k) else 0.0
  {
  }

  // ------------------------------------------------ arrays as values

  /** A two-axis array as a matrix value. */
  function Rows2<T>(g: array2<T>): (m: seq<seq<T>>)
    reads g
    ensures |m| == g.Length0
    ensures forall i :: 0 <= i < g.Length0 ==> |m[i]| == g.Length1
    ensures forall i, j :: 0 <= i < g.Length0 && 0 <= j < g.Length1 ==> m[i][j] == g[i, j]
  {
    seq(g.Length0, i requires 0 <= i < g.Length0 reads g =>
      seq(g.Length1, j requires 0 <= j < g.Length1 reads g => g[i, j]))
  }

  /** A three-axis array as a value. */
  function Rows3<T>(s: array3<T>): (t: seq<seq<seq<T>>>)
    reads s
    ensures |t| == s.Length0
    ensures forall i :: 0 <= i < s.Length0 ==> |t[i]| == s.Length1
    ensures forall i, j :: 0 <= i < s.Length0 && 0 <= j < s.Length1 ==> |t[i][j]| == s.Length2
    ensures forall i, j, k :: 0 <= i < s.Length0 && 0 <= j < s.Length1 && 0 <= k < s.Length2 ==>
              t[i][j][k] == s[i, j, k]
  {
    seq(s.Length0, i requires 0 <= i < s.Length0 reads s =>
      seq(s.Length1, j requires 0 <= j < s.Length1 reads s =>
        seq(s.Length2, k requires 0 <= k < s.Length2 reads s => s[i, j, k])))
  }

  /** Two `n` by `n` by `w` values that agree cell by cell are equal. */
  lemma CubeSeq<T>(a: seq<seq<seq<T>>>, b: seq<seq<seq<T>>>, n: nat, w: nat)
    requires |a| == n && |b| == n
    requires forall i :: 0 <= i < n ==> |a[i]| == n && |b[i]| == n
    requires forall i, j :: 0 <= i < n && 0 <= j < n ==> |a[i][j]| == w && |b[i][j]| == w
    requires forall i, j, k :: 0 <= i < n && 0 <= j < n && 0 <= k < w ==> a[i][j][k] == b[i][j][k]
    ensures a == b
  {
    forall i | 0 <= i < n
      ensures a[i] == b[i]
    {
      forall j | 0 <= j < n
        ensures a[i][j] == b[i][j]
      {
        assert forall k :: 0 <= k < w ==> a[i][j][k] == b[i][j][k];
      }
    }
  }
}
