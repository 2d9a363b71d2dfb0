/** The capacitance fit's linear-regression form (compartmenttree.py,
    `_toStructureTensorC`, `_toVecC`, `_toTreeC`, `computeC`): one
    capacitance slot per compartment, a frequency-indexed structure tensor
    that puts the frequency on the compartment's diagonal cell, and the
    least-squares system built from impedance matrices at those frequencies
    with the conductances already in place. */
module CapacitanceFit {
  import opened ComplexNumbers
  import opened LinAlg
  import opened Topology
  import opened Conductance
  import opened SystemMatrix

  /** Cell `(o, j, k, l)` of the capacitance structure tensor: frequency `o`
      times a unit capacitance `l` lands on cell `(l, l)` only. */
  function StructureEntryC(freqs: seq<Complex>, o: nat, j: nat, k: nat, l: nat): Complex
    requires o < |freqs|
  {
    if j == k && k == l then freqs[o] else Zero
  }

  /** The `nf` by `n` by `n` by `n` capacitance structure tensor as a value. */
  function StructureTensorC(freqs: seq<Complex>, n: nat): (s: seq<seq<seq<seq<Complex>>>>)
    ensures |s| == |freqs|
    ensures forall o :: 0 <= o < |freqs| ==> |s[o]| == n
    ensures forall o, j :: 0 <= o < |freqs| && 0 <= j < n ==> IsSquare(s[o][j], n)
  {
    seq(|freqs|, o requires 0 <= o < |freqs| =>
      seq(n, j requires 0 <= j < n =>
        seq(n, k requires 0 <= k < n =>
          seq(n, l requires 0 <= l < n => StructureEntryC(freqs, o, j, k, l)))))
  }

  /** The flat capacitance vector (`_toVecC`): compartment `c`'s capacitance
      in slot `c`. */
  function VecC(p: seq<NodeParams>): (v: seq<real>)
    ensures |v| == |p| && forall c :: 0 <= c < |p| ==> v[c] == p[c].ca
  {
    seq(|p|, c requires 0 <= c < |p| => p[c].ca)
  }

  /** Writing a capacitance vector back onto the nodes (`_toTreeC`). */
  function UnpackC(p: seq<NodeParams>, v: seq<real>): (r: seq<NodeParams>)
    requires |v| >= |p|
    ensures |r| == |p|
    ensures forall c :: 0 <= c < |p| ==> r[c].g_c == p[c].g_c && r[c].g_l == p[c].g_l
  {
    seq(|p|, c requires 0 <= c < |p| => p[c].(ca := v[c]))
  }

  /** `UnpackC` on the first `m` nodes only, as far as the write-back gets
      with a vector of length `m`. */
  function UnpackCUpTo(p: seq<NodeParams>, v: seq<real>, m: nat): (r: seq<NodeParams>)
    requires m <= |p| && |v| >= m
    ensures |r| == |p|
    ensures forall c :: m <= c < |p| ==> r[c] == p[c]
    ensures forall c :: 0 <= c < |p| ==> r[c].g_c == p[c].g_c && r[c].g_l == p[c].g_l
    ensures m == |p| ==> r == UnpackC(p, v)
  {
    seq(|p|, c requires 0 <= c < |p| => if c < m then p[c].(ca := v[c]) else p[c])
  }

  /** A real vector taken as complex. */
  function Lift(v: seq<real>): (x: seq<Complex>)
    ensures |x| == |v| && forall l :: 0 <= l < |v| ==> x[l] == FromReal(v[l])
  {
    seq(|v|, l requires 0 <= l < |v| => FromReal(v[l]))
  }

  /** The real parts of a complex vector (`.real`). */
  function RealParts(x: seq<Complex>): (v: seq<real>)
    ensures |v| == |x| && forall l :: 0 <= l < |x| ==> v[l] == x[l].re
  {
    seq(|x|, l requires 0 <= l < |x| => x[l].re)
  }

  // --------------------------------------------------------- round trips

  /** Reading the capacitances back after writing them gives the vector. */
  lemma PackUnpackC(p: seq<NodeParams>, v: seq<real>)
    requires |v| >= |p|
    ensures VecC(UnpackC(p, v)) == v[..|p|]
  {
  }

  /** Writing back the capacitances read from the nodes changes nothing. */
  lemma UnpackPackC(p: seq<NodeParams>)
    ensures UnpackC(p, VecC(p)) == p
  {
  }

  /** Taking real parts undoes lifting, and lifting undoes taking real parts
      of a vector with no imaginary part. */
  lemma LiftRealParts(x: seq<Complex>, v: seq<real>)
    ensures RealParts(Lift(v)) == v
    ensures (forall l :: 0 <= l < |x| ==> x[l].im == 0.0) <==> Lift(RealParts(x)) == x
  {
    if Lift(RealParts(x)) == x {
      forall l | 0 <= l < |x|
        ensures x[l].im == 0.0
      {
        assert Lift(RealParts(x))[l] == x[l];
      }
    }
  }

  // ------------------------------------------------------ reconstruction

  /** Capacitance reconstruction: the conductance matrix plus
      `sum_l c[l] * S[o, :, :, l]` with `c = VecC(p)` is the system matrix
      at frequency `o`. */
  lemma ReconstructionC(parent: seq<int>, p: seq<NodeParams>, freqs: seq<Complex>, o: nat, i: nat, j: nat)
    requires ParamsFor(parent, p) && o < |freqs| && i < |parent| && j < |parent|
    ensures Add(FromReal(Entry(parent, p, i, j)), CDot(StructureTensorC(freqs, |parent|)[o][i][j], Lift(VecC(p))))
         == SystemSlice(parent, p, freqs[o])[i][j]
  {
    var n := |parent|;
    var s := StructureTensorC(freqs, n)[o][i][j];
    var x := Lift(VecC(p));
    if i == j {
      CDotUnitLeft(s, x, i, n);
      MulFromReal(freqs[o], p[i].ca);
    } else {
      CDotZeroLeft(s, x, n);
    }
  }

  // ----------------------------------------------------------- the fit

  /** `n` by `n` impedance matrices, one per frequency. */
  ghost predicate ImpedanceStack(zf: seq<seq<seq<Complex>>>, nf: nat, n: nat)
  {
    |zf| == nf && forall o :: 0 <= o < nf ==> IsSquare(zf[o], n)
  }

  /** One frequency's slice of `einsum('oij,ojkl->oikl', zf, S)`: cell
      `(i, k, l)` is `sum_j z[i][j] * s[j][k][l]`. */
  function SliceFeatures(z: seq<seq<Complex>>, s: seq<seq<seq<Complex>>>, w: nat): (f: seq<seq<seq<Complex>>>)
    requires |s| == |z| && RowsOfLength(z, |z|)
    requires forall j :: 0 <= j < |s| ==> |s[j]| == |z| && RowsOfLength(s[j], w)
    ensures |f| == |z| && forall i :: 0 <= i < |z| ==> |f[i]| == |z| && RowsOfLength(f[i], w)
  {
    var n := |z|;
    seq(n, i requires 0 <= i < n =>
      seq(n, k requires 0 <= k < n =>
        seq(w, l requires 0 <= l < w =>
          FiberInRange(s, w, k, l);
          CDot(z[i], Fiber(s, k, l)))))
  }

  /** The feature tensor of `computeC`, one slice per frequency. */
  function FeaturesC(freqs: seq<Complex>, zf: seq<seq<seq<Complex>>>, n: nat): (f: seq<seq<seq<seq<Complex>>>>)
    requires ImpedanceStack(zf, |freqs|, n)
    ensures |f| == |freqs|
    ensures forall o :: 0 <= o < |freqs| ==> |f[o]| == n && forall i :: 0 <= i < n ==> RowsOfLength(f[o][i], n)
  {
    var s := StructureTensorC(freqs, n);
    seq(|freqs|, o requires 0 <= o < |freqs| => SliceFeatures(zf[o], s[o], n))
  }

  /** The feature matrix of `computeC`: the feature tensor with its first
      three axes merged, so that row `(o * n + i) * n + k` is feature row
      `(o, i, k)`, with one column per compartment. */
  function FeatureMatrixC(freqs: seq<Complex>, zf: seq<seq<seq<Complex>>>, n: nat): (a: seq<seq<Complex>>)
    requires ImpedanceStack(zf, |freqs|, n)
    ensures RowsOfLength(a, n)
    ensures |a| == RowMajor(|freqs|, 0, RowMajor(n, 0, n))
    ensures forall o, i, k :: 0 <= o < |freqs| && 0 <= i < n && 0 <= k < n ==>
              RowMajor(o, RowMajor(i, k, n), RowMajor(n, 0, n)) < |a|
    ensures forall o, i, k :: 0 <= o < |freqs| && 0 <= i < n && 0 <= k < n ==>
              a[RowMajor(o, RowMajor(i, k, n), RowMajor(n, 0, n))] == FeaturesC(freqs, zf, n)[o][i][k]
  {
    var f := FeaturesC(freqs, zf, n);
    FlattenStacks(f, n);
    var blocks := seq(|f|, o requires 0 <= o < |f| => Flatten(f[o]));
    FlattenRows(blocks, n);
    FlattenStackIndex(f, blocks, n, n);
    Flatten(blocks)
  }

  /** Column `k` of a real matrix, taken as complex. */
  function LiftedColumn(g: seq<seq<real>>, k: nat): (c: seq<Complex>)
    requires forall r :: 0 <= r < |g| ==> k < |g[r]|
    ensures |c| == |g| && forall r :: 0 <= r < |g| ==> c[r] == FromReal(g[r][k])
  {
    seq(|g|, r requires 0 <= r < |g| => FromReal(g[r][k]))
  }

  /** The target tensor of `computeC`: the identity minus each impedance
      matrix times the conductance matrix `g`. */
  function TargetC(g: seq<seq<real>>, zf: seq<seq<seq<Complex>>>): (t: seq<seq<seq<Complex>>>)
    requires forall o :: 0 <= o < |zf| ==> IsSquare(zf[o], |g|)
    requires RowsOfLength(g, |g|)
    ensures |t| == |zf| && forall o :: 0 <= o < |zf| ==> IsSquare(t[o], |g|)
  {
    var n := |g|;
    seq(|zf|, o requires 0 <= o < |zf| =>
      seq(n, i requires 0 <= i < n =>
        assert IsSquare(zf[o], n);
        seq(n, k requires 0 <= k < n => Sub(Delta(i, k), CDot(zf[o][i], LiftedColumn(g, k))))))
  }

  /** The target vector of `computeC`: the target tensor flattened, so that
      entry `(o * n + i) * n + k` is target cell `(o, i, k)`. */
  function TargetVectorC(g: seq<seq<real>>, zf: seq<seq<seq<Complex>>>): (v: seq<Complex>)
    requires forall o :: 0 <= o < |zf| ==> IsSquare(zf[o], |g|)
    requires RowsOfLength(g, |g|)
    ensures |v| == RowMajor(|zf|, 0, RowMajor(|g|, 0, |g|))
    ensures forall o, i, k :: 0 <= o < |zf| && 0 <= i < |g| && 0 <= k < |g| ==>
              RowMajor(o, RowMajor(i, k, |g|), RowMajor(|g|, 0, |g|)) < |v|
    ensures forall o, i, k :: 0 <= o < |zf| && 0 <= i < |g| && 0 <= k < |g| ==>
              v[RowMajor(o, RowMajor(i, k, |g|), RowMajor(|g|, 0, |g|))] == TargetC(g, zf)[o][i][k]
  {
    var t := TargetC(g, zf);
    var blocks := seq(|t|, o requires 0 <= o < |t| => Flatten(t[o]));
    FlattenStackIndex(t, blocks, |g|, |g|);
    Flatten(blocks)
  }

  /** Feature cell `(o, i, k, l)` in closed form: the impedance cell `(i, k)`
      times the frequency when `l == k`, and zero otherwise. */
  lemma FeatureCellC(freqs: seq<Complex>, zf: seq<seq<seq<Complex>>>, n: nat, o: nat, i: nat, k: nat, l: nat)
    requires ImpedanceStack(zf, |freqs|, n) && o < |freqs| && i < n && k < n && l < n
    ensures FeaturesC(freqs, zf, n)[o][i][k][l] == if l == k then Mul(zf[o][i][k], freqs[o]) else Zero
  {
    var s := StructureTensorC(freqs, n)[o];
    FiberInRange(s, n, k, l);
    var fib := Fiber(s, k, l);
    assert RowsOfLength(zf[o], n);
    if l == k {
      CDotUnitRight(zf[o][i], fib, k, n);
    } else {
      CDotZeroRight(zf[o][i], fib, n);
    }
  }

  /** One row of the system: row `(o, i, k)` applied to the capacitances
      `c` is cell `(i, k)` of `zf[o]` times their diagonal
      `freqs[o] * c`. */
  lemma FeatureRowC(freqs: seq<Complex>, zf: seq<seq<seq<Complex>>>, c: seq<real>, o: nat, i: nat, k: nat)
    requires ImpedanceStack(zf, |freqs|, |c|) && o < |freqs| && i < |c| && k < |c|
    ensures CDot(FeaturesC(freqs, zf, |c|)[o][i][k], Lift(c)) == Mul(zf[o][i][k], Scale(freqs[o], c[k]))
  {
    var n := |c|;
    var row := FeaturesC(freqs, zf, n)[o][i][k];
    forall l | 0 <= l < n
      ensures row[l] == if l == k then Mul(zf[o][i][k], freqs[o]) else Zero
    {
      FeatureCellC(freqs, zf, n, o, i, k, l);
    }
    CDotUnitLeft(row, Lift(c), k, n);
    MulAssoc(zf[o][i][k], freqs[o], FromReal(c[k]));
    MulFromReal(freqs[o], c[k]);
  }

  /** Cell `(i, k)` of `zf[o]` times the system matrix of the tree whose
      capacitances are `c`: the conductance part plus the capacitive part. */
  lemma ProductCellC(parent: seq<int>, p: seq<NodeParams>, freqs: seq<Complex>,
                     zf: seq<seq<seq<Complex>>>, c: seq<real>, o: nat, i: nat, k: nat)
    requires ParamsFor(parent, p) && |c| == |parent| && ImpedanceStack(zf, |freqs|, |c|)
    requires o < |freqs| && i < |c| && k < |c|
    ensures CMatMul(zf[o], SystemSlice(parent, UnpackC(p, c), freqs[o]), |c|)[i][k]
         == Add(CDot(zf[o][i], LiftedColumn(ConductanceMatrix(parent, p), k)),
                Mul(zf[o][i][k], Scale(freqs[o], c[k])))
  {
    var n := |c|;
    var q := UnpackC(p, c);
    var sys := SystemSlice(parent, q, freqs[o]);
    var col := Column(sys, k);
    var gcol := LiftedColumn(ConductanceMatrix(parent, p), k);
    var unit := seq(n, j requires 0 <= j < n => if j == k then Scale(freqs[o], c[k]) else Zero);
    assert RowsOfLength(zf[o], n);
    forall j | 0 <= j < n
      ensures col[j] == Add(gcol[j], unit[j])
    {
      assert Entry(parent, q, j, k) == Entry(parent, p, j, k) by {
        ChildCouplingSameConductance(parent, p, q, |parent|, j);
      }
    }
    CDotAddRight(zf[o][i], gcol, unit, col, n);
    CDotUnitRight(zf[o][i], unit, k, n);
  }

  /** Capacitances do not enter the conductance matrix. */
  lemma ChildCouplingSameConductance(parent: seq<int>, p: seq<NodeParams>, q: seq<NodeParams>, m: nat, i: int)
    requires ParamsFor(parent, p) && ParamsFor(parent, q) && m <= |parent|
    requires forall c :: 0 <= c < |p| ==> q[c].g_c == p[c].g_c && q[c].g_l == p[c].g_l
    ensures ChildCoupling(parent, q, m, i) == ChildCoupling(parent, p, m, i)
  {
    if m > 0 {
      ChildCouplingSameConductance(parent, p, q, m - 1, i);
    }
  }

  /** The feature matrix of `computeC` applied to the capacitances `c`,
      before the reshape: one `n` by `n` block per frequency. */
  function FittedC(freqs: seq<Complex>, zf: seq<seq<seq<Complex>>>, c: seq<real>): (y: seq<seq<seq<Complex>>>)
    requires ImpedanceStack(zf, |freqs|, |c|)
    ensures |y| == |freqs| && forall o :: 0 <= o < |freqs| ==> IsSquare(y[o], |c|)
  {
    var f := FeaturesC(freqs, zf, |c|);
    seq(|freqs|, o requires 0 <= o < |freqs| =>
      seq(|c|, i requires 0 <= i < |c| => CMatVec(f[o][i], Lift(c))))
  }

  /** Applying the reshaped feature matrix is reshaping the applied blocks. */
  lemma FeatureMatrixApply(freqs: seq<Complex>, zf: seq<seq<seq<Complex>>>, c: seq<real>)
    requires ImpedanceStack(zf, |freqs|, |c|)
    ensures CMatVec(FeatureMatrixC(freqs, zf, |c|), Lift(c))
         == Flatten(seq(|freqs|, o requires 0 <= o < |freqs| => Flatten(FittedC(freqs, zf, c)[o])))
  {
    var n := |c|;
    var nf := |freqs|;
    var x := Lift(c);
    var f := FeaturesC(freqs, zf, n);
    var y := FittedC(freqs, zf, c);
    var blocks := seq(nf, o requires 0 <= o < nf => Flatten(f[o]));
    FlattenStacks(f, n);
    CMatVecFlatten(blocks, x);
    var applied := seq(nf, o requires 0 <= o < nf => CMatVec(blocks[o], x));
    forall o | 0 <= o < nf
      ensures applied[o] == Flatten(y[o])
    {
      CMatVecFlatten(f[o], x);
      assert y[o] == seq(|f[o]|, b requires 0 <= b < |f[o]| => CMatVec(f[o][b], x));
    }
    assert applied == seq(nf, o requires 0 <= o < nf => Flatten(y[o]));
  }

  /** A system cell equals its target cell exactly when the matching cell of
      `zf[o]` times the system matrix is the identity's. */
  lemma CellIffC(parent: seq<int>, p: seq<NodeParams>, freqs: seq<Complex>,
                 zf: seq<seq<seq<Complex>>>, c: seq<real>, o: nat, i: nat, k: nat)
    requires ParamsFor(parent, p) && |c| == |parent| && ImpedanceStack(zf, |freqs|, |c|)
    requires o < |freqs| && i < |c| && k < |c|
    ensures FittedC(freqs, zf, c)[o][i][k] == TargetC(ConductanceMatrix(parent, p), zf)[o][i][k]
        <==> CMatMul(zf[o], SystemSlice(parent, UnpackC(p, c), freqs[o]), |c|)[i][k] == Delta(i, k)
  {
    FeatureRowC(freqs, zf, c, o, i, k);
    ProductCellC(parent, p, freqs, zf, c, o, i, k);
  }

  /** A capacitance vector solves the least-squares system of `computeC`
      exactly if and only if, at every frequency, the impedance matrix times
      the system matrix of the tree with those capacitances is the
      identity. */
  lemma FitExactC(parent: seq<int>, p: seq<NodeParams>, freqs: seq<Complex>,
                  zf: seq<seq<seq<Complex>>>, c: seq<real>)
    requires ParamsFor(parent, p) && |c| == |parent| && ImpedanceStack(zf, |freqs|, |c|)
    ensures CMatVec(FeatureMatrixC(freqs, zf, |c|), Lift(c)) == TargetVectorC(ConductanceMatrix(parent, p), zf)
        <==> forall o :: 0 <= o < |freqs| ==>
               CMatMul(zf[o], SystemSlice(parent, UnpackC(p, c), freqs[o]), |c|) == CIdentity(|c|)
  {
    var n := |c|;
    var nf := |freqs|;
    var y := FittedC(freqs, zf, c);
    var t := TargetC(ConductanceMatrix(parent, p), zf);
    var lhs := CMatVec(FeatureMatrixC(freqs, zf, n), Lift(c));
    assert lhs == Flatten(seq(|y|, o requires 0 <= o < |y| => Flatten(y[o]))) by {
      FeatureMatrixApply(freqs, zf, c);
    }
    assert lhs == TargetVectorC(ConductanceMatrix(parent, p), zf) <==> y == t by {
      FlattenStacksInjective(y, t);
    }
    forall o | 0 <= o < nf
      ensures y[o] == t[o]
          <==> CMatMul(zf[o], SystemSlice(parent, UnpackC(p, c), freqs[o]), n) == CIdentity(n)
    {
      SliceIffC(parent, p, freqs, zf, c, o);
    }
    assert y == t <==> forall o :: 0 <= o < nf ==> y[o] == t[o];
  }

  /** The system's block for frequency `o` meets its target exactly when
      `zf[o]` times that frequency's system matrix is the identity. */
  lemma SliceIffC(parent: seq<int>, p: seq<NodeParams>, freqs: seq<Complex>,
                  zf: seq<seq<seq<Complex>>>, c: seq<real>, o: nat)
    requires ParamsFor(parent, p) && |c| == |parent| && ImpedanceStack(zf, |freqs|, |c|) && o < |freqs|
    ensures FittedC(freqs, zf, c)[o] == TargetC(ConductanceMatrix(parent, p), zf)[o]
        <==> CMatMul(zf[o], SystemSlice(parent, UnpackC(p, c), freqs[o]), |c|) == CIdentity(|c|)
  {
    var n := |c|;
    var y := FittedC(freqs, zf, c)[o];
    var t := TargetC(ConductanceMatrix(parent, p), zf)[o];
    var prod := CMatMul(zf[o], SystemSlice(parent, UnpackC(p, c), freqs[o]), n);
    forall i, k | 0 <= i < n && 0 <= k < n
      ensures y[i][k] == t[i][k] <==> prod[i][k] == CIdentity(n)[i][k]
    {
      CellIffC(parent, p, freqs, zf, c, o, i, k);
    }
    SquareEqual(y, t, prod, CIdentity(n), n);
  }

  /** Two pairs of `n` by `n` matrices whose cells agree pairwise in the
      same places agree as matrices in the same cases. */
  lemma SquareEqual(a: seq<seq<Complex>>, b: seq<seq<Complex>>, c: seq<seq<Complex>>, d: seq<seq<Complex>>, n: nat)
    requires IsSquare(a, n) && IsSquare(b, n) && IsSquare(c, n) && IsSquare(d, n)
    requires forall i, k :: 0 <= i < n && 0 <= k < n ==> (a[i][k] == b[i][k] <==> c[i][k] == d[i][k])
    ensures a == b <==> c == d
  {
    if a == b {
      forall i | 0 <= i < n
        ensures c[i] == d[i]
      {
        assert forall k :: 0 <= k < n ==> c[i][k] == d[i][k];
      }
    }
    if c == d {
      forall i | 0 <= i < n
        ensures a[i] == b[i]
      {
        assert forall k :: 0 <= k < n ==> a[i][k] == b[i][k];
      }
    }
  }

  // ---------------------------------------------------- identifiability

  /** Writing capacitances back leaves the conductance matrix as it was. */
  lemma ConductanceOfUnpackC(parent: seq<int>, p: seq<NodeParams>, v: seq<real>)
    requires ParamsFor(parent, p) && |v| >= |p|
    ensures ConductanceMatrix(parent, UnpackC(p, v)) == ConductanceMatrix(parent, p)
  {
    var q := UnpackC(p, v);
    var n := |parent|;
    forall i, j | 0 <= i < n && 0 <= j < n
      ensures ConductanceMatrix(parent, q)[i][j] == ConductanceMatrix(parent, p)[i][j]
    {
      ChildCouplingSameConductance(parent, p, q, n, i);
    }
    SquareSeq(ConductanceMatrix(parent, q), ConductanceMatrix(parent, p), n);
  }

  /** Only the conductance matrix and the capacitances enter the system
      matrix. */
  lemma SystemDetermined(parent: seq<int>, p: seq<NodeParams>, q: seq<NodeParams>, f: Complex)
    requires ParamsFor(parent, p) && ParamsFor(parent, q)
    requires ConductanceMatrix(parent, p) == ConductanceMatrix(parent, q)
    requires forall c :: 0 <= c < |p| ==> p[c].ca == q[c].ca
    ensures SystemSlice(parent, p, f) == SystemSlice(parent, q, f)
  {
    var n := |parent|;
    forall i, j | 0 <= i < n && 0 <= j < n
      ensures SystemSlice(parent, p, f)[i][j] == SystemSlice(parent, q, f)[i][j]
    {
      SystemCells(parent, p, f, i, j);
      SystemCells(parent, q, f, i, j);
    }
    SquareSeq(SystemSlice(parent, p, f), SystemSlice(parent, q, f), n);
  }

  /** One capacitance of an exact answer is pinned down by a nonzero
      frequency `o` whose impedance matrix is the two-sided inverse of the
      system matrix of `pTrue`. */
  lemma CapacitanceAtC(parent: seq<int>, p: seq<NodeParams>, pTrue: seq<NodeParams>, freqs: seq<Complex>,
                       zf: seq<seq<seq<Complex>>>, c: seq<real>, o: nat, k: nat)
    requires ParamsFor(parent, p) && ParamsFor(parent, pTrue) && |c| == |parent|
    requires ImpedanceStack(zf, |freqs|, |parent|) && o < |freqs| && k < |parent| && freqs[o] != Zero
    requires ConductanceMatrix(parent, p) == ConductanceMatrix(parent, pTrue)
    requires CMatMul(SystemSlice(parent, pTrue, freqs[o]), zf[o], |parent|) == CIdentity(|parent|)
    requires CMatMul(zf[o], SystemSlice(parent, pTrue, freqs[o]), |parent|) == CIdentity(|parent|)
    requires CMatMul(zf[o], SystemSlice(parent, UnpackC(p, c), freqs[o]), |parent|) == CIdentity(|parent|)
    ensures c[k] == pTrue[k].ca
  {
    var n := |parent|;
    var f := freqs[o];
    var sTrue := SystemSlice(parent, pTrue, f);
    var t := VecC(pTrue);
    ConductanceOfUnpackC(parent, p, t);
    SystemDetermined(parent, UnpackC(p, t), pTrue, f);
    var u := Scale(f, c[k]);
    var u' := Scale(f, t[k]);
    assert RowsOfLength(zf[o], n);
    var col := Column(zf[o], k);
    var b := seq(n, i requires 0 <= i < n => Mul(col[i], u));
    forall i | 0 <= i < n
      ensures b[i] == Mul(col[i], u')
    {
      ProductCellC(parent, p, freqs, zf, c, o, i, k);
      ProductCellC(parent, p, freqs, zf, t, o, i, k);
      assert CMatMul(zf[o], SystemSlice(parent, UnpackC(p, t), f), n)[i][k] == Delta(i, k);
    }
    CDotScaleRight(sTrue[k], col, b, u, n);
    CDotScaleRight(sTrue[k], col, b, u', n);
    assert CDot(sTrue[k], col) == One by {
      assert CMatMul(sTrue, zf[o], n)[k][k] == CIdentity(n)[k][k];
    }
    MulOneLeft(u);
    MulOneLeft(u');
    ScaleCancel(f, c[k], t[k]);
  }

  /** The capacitance fit has only one exact answer. Take a tree `pTrue`
      with the nodes' conductance matrix, let every impedance matrix be the
      two-sided inverse of `pTrue`'s system matrix at its frequency, and let
      some frequency be nonzero. Then a capacitance vector solves the system
      of `computeC` exactly if and only if it is `pTrue`'s capacitance
      vector. */
  lemma FitIdentifiesC(parent: seq<int>, p: seq<NodeParams>, pTrue: seq<NodeParams>, freqs: seq<Complex>,
                       zf: seq<seq<seq<Complex>>>, c: seq<real>)
    requires ParamsFor(parent, p) && ParamsFor(parent, pTrue) && |c| == |parent|
    requires ImpedanceStack(zf, |freqs|, |parent|)
    requires ConductanceMatrix(parent, p) == ConductanceMatrix(parent, pTrue)
    requires forall o :: 0 <= o < |freqs| ==>
               CMatMul(zf[o], SystemSlice(parent, pTrue, freqs[o]), |parent|) == CIdentity(|parent|)
    requires forall o :: 0 <= o < |freqs| ==>
               CMatMul(SystemSlice(parent, pTrue, freqs[o]), zf[o], |parent|) == CIdentity(|parent|)
    requires exists o :: 0 <= o < |freqs| && freqs[o] != Zero
    ensures CMatVec(FeatureMatrixC(freqs, zf, |c|), Lift(c)) == TargetVectorC(ConductanceMatrix(parent, p), zf)
        <==> c == VecC(pTrue)
  {
    var n := |parent|;
    FitExactC(parent, p, freqs, zf, c);
    if c == VecC(pTrue) {
      ConductanceOfUnpackC(parent, p, c);
      forall o | 0 <= o < |freqs|
        ensures CMatMul(zf[o], SystemSlice(parent, UnpackC(p, c), freqs[o]), n) == CIdentity(n)
      {
        SystemDetermined(parent, UnpackC(p, c), pTrue, freqs[o]);
      }
    }
    if forall o :: 0 <= o < |freqs| ==>
         CMatMul(zf[o], SystemSlice(parent, UnpackC(p, c), freqs[o]), n) == CIdentity(n) {
      var o :| 0 <= o < |freqs| && freqs[o] != Zero;
      forall k | 0 <= k < n
        ensures c[k] == VecC(pTrue)[k]
      {
        CapacitanceAtC(parent, p, pTrue, freqs, zf, c, o, k);
      }
    }
  }

  /** The capacitance fit recovers the tree it was given: in the setting of
      `FitIdentifiesC`, a capacitance vector solves the system of `computeC`
      exactly if and only if writing it back gives every node `pTrue`'s
      capacitance. */
  lemma FitRecoversC(parent: seq<int>, p: seq<NodeParams>, pTrue: seq<NodeParams>, freqs: seq<Complex>,
                     zf: seq<seq<seq<Complex>>>, c: seq<real>)
    requires ParamsFor(parent, p) && ParamsFor(parent, pTrue) && |c| == |parent|
    requires ImpedanceStack(zf, |freqs|, |parent|)
    requires ConductanceMatrix(parent, p) == ConductanceMatrix(parent, pTrue)
    requires forall o :: 0 <= o < |freqs| ==>
               CMatMul(zf[o], SystemSlice(parent, pTrue, freqs[o]), |parent|) == CIdentity(|parent|)
    requires forall o :: 0 <= o < |freqs| ==>
               CMatMul(SystemSlice(parent, pTrue, freqs[o]), zf[o], |parent|) == CIdentity(|parent|)
    requires exists o :: 0 <= o < |freqs| && freqs[o] != Zero
    ensures CMatVec(FeatureMatrixC(freqs, zf, |c|), Lift(c)) == TargetVectorC(ConductanceMatrix(parent, p), zf)
        <==> forall k :: 0 <= k < |parent| ==> UnpackC(p, c)[k].ca == pTrue[k].ca
  {
    FitIdentifiesC(parent, p, pTrue, freqs, zf, c);
    assert c == VecC(pTrue) <==> forall k :: 0 <= k < |parent| ==> c[k] == pTrue[k].ca;
  }

  /** With every frequency zero the capacitances drop out of the fit: two
      capacitance vectors are exact solutions together or not at all. */
  lemma FitUndeterminedC(parent: seq<int>, p: seq<NodeParams>, freqs: seq<Complex>,
                         zf: seq<seq<seq<Complex>>>, c: seq<real>, d: seq<real>)
    requires ParamsFor(parent, p) && |c| == |parent| && |d| == |parent|
    requires ImpedanceStack(zf, |freqs|, |parent|)
    requires forall o :: 0 <= o < |freqs| ==> freqs[o] == Zero
    ensures CMatVec(FeatureMatrixC(freqs, zf, |c|), Lift(c)) == TargetVectorC(ConductanceMatrix(parent, p), zf)
        <==> CMatVec(FeatureMatrixC(freqs, zf, |d|), Lift(d)) == TargetVectorC(ConductanceMatrix(parent, p), zf)
  {
    FitExactC(parent, p, freqs, zf, c);
    FitExactC(parent, p, freqs, zf, d);
    ConductanceOfUnpackC(parent, p, c);
    ConductanceOfUnpackC(parent, p, d);
    SystemAtZero(parent, UnpackC(p, c));
    SystemAtZero(parent, UnpackC(p, d));
  }
}
