/** The frequency-domain system matrix of a compartment tree
    (compartmenttree.py, `calcSystemMatrix`): at frequency `f` it is the
    conductance matrix, taken as complex, with `f * ca` added to each
    compartment's diagonal cell. */
module SystemMatrix {
  import opened ComplexNumbers
  import opened LinAlg
  import opened Topology
  import opened Conductance

  /** Cell `(i, j)` of the system matrix at frequency `f`. */
  function SystemCell(parent: seq<int>, p: seq<NodeParams>, f: Complex, i: nat, j: nat): Complex
    requires ParamsFor(parent, p) && i < |parent| && j < |parent|
  {
    var g := FromReal(Entry(parent, p, i, j));
    if i == j then Add(g, Scale(f, p[i].ca)) else g
  }

  /** The system matrix at one frequency as a value. */
  function SystemSlice(parent: seq<int>, p: seq<NodeParams>, f: Complex): (m: seq<seq<Complex>>)
    requires ParamsFor(parent, p)
    ensures IsSquare(m, |parent|)
    ensures forall i, j :: 0 <= i < |parent| && 0 <= j < |parent| ==> m[i][j] == m[j][i]
  {
    var n := |parent|;
    seq(n, i requires 0 <= i < n => seq(n, j requires 0 <= j < n => SystemCell(parent, p, f, i, j)))
  }

  /** A real matrix taken as complex (`astype(complex)`). */
  function LiftMatrix(g: seq<seq<real>>): (m: seq<seq<Complex>>)
    ensures |m| == |g| && forall i :: 0 <= i < |g| ==> |m[i]| == |g[i]|
  {
    seq(|g|, i requires 0 <= i < |g| => seq(|g[i]|, j requires 0 <= j < |g[i]| => FromReal(g[i][j])))
  }

  /** Off the diagonal the system matrix is the conductance matrix; on it,
      the conductance matrix plus the frequency times the capacitance. */
  lemma SystemCells(parent: seq<int>, p: seq<NodeParams>, f: Complex, i: nat, j: nat)
    requires ParamsFor(parent, p) && i < |parent| && j < |parent|
    ensures i != j ==> SystemSlice(parent, p, f)[i][j] == LiftMatrix(ConductanceMatrix(parent, p))[i][j]
    ensures i == j ==>
      SystemSlice(parent, p, f)[i][j] == Add(LiftMatrix(ConductanceMatrix(parent, p))[i][j], Scale(f, p[i].ca))
  {
  }

  /** At frequency zero the system matrix is the conductance matrix. */
  lemma SystemAtZero(parent: seq<int>, p: seq<NodeParams>)
    requires ParamsFor(parent, p)
    ensures SystemSlice(parent, p, Zero) == LiftMatrix(ConductanceMatrix(parent, p))
  {
    var n := |parent|;
    var s := SystemSlice(parent, p, Zero);
    var g := LiftMatrix(ConductanceMatrix(parent, p));
    forall i | 0 <= i < n
      ensures s[i] == g[i]
    {
      forall j | 0 <= j < n
        ensures s[i][j] == g[i][j]
      {
      }
    }
  }

  /** The system matrix is symmetric, like the conductance matrix. */
  lemma SystemSymmetric(parent: seq<int>, p: seq<NodeParams>, f: Complex, i: nat, j: nat)
    requires ParamsFor(parent, p) && i < |parent| && j < |parent|
    ensures SystemSlice(parent, p, f)[i][j] == SystemSlice(parent, p, f)[j][i]
  {
    Symmetric(parent, p, i, j);
  }
}
