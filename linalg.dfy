/** Dense vectors and matrices as sequences, with the few sums, products
    and reshapes the fitting code takes from numpy (`einsum`, `reshape`,
    `eye`, the matrix-vector product a least-squares solve is about). */
module LinAlg {
  import opened ComplexNumbers

  /** Every row of `m` has length `w`. */
  ghost predicate RowsOfLength<T>(m: seq<seq<T>>, w: nat)
  {
    forall r :: 0 <= r < |m| ==> |m[r]| == w
  }

  /** `m` is an `n` by `n` matrix. */
  ghost predicate IsSquare<T>(m: seq<seq<T>>, n: nat)
  {
    |m| == n && RowsOfLength(m, n)
  }

  // ---------------------------------------------------------------- real

  /** The sum of the first `n` entries of `s`. */
  function SumTo(s: seq<real>, n: nat): real
    requires n <= |s|
  {
    if n == 0 then 0.0 else SumTo(s, n - 1) + s[n - 1]
  }

  function Sum(s: seq<real>): real
  {
    SumTo(s, |s|)
  }

  /** The dot product of the first `n` entries of `a` and `b`. */
  function DotTo(a: seq<real>, b: seq<real>, n: nat): real
    requires n <= |a| && n <= |b|
  {
    if n == 0 then 0.0 else DotTo(a, b, n - 1) + a[n - 1] * b[n - 1]
  }

  /** Two more terms of a dot product. */
  lemma DotToStepTwo(a: seq<real>, b: seq<real>, n: nat)
    requires n + 2 <= |a| && n + 2 <= |b|
    ensures DotTo(a, b, n + 2) == DotTo(a, b, n) + a[n] * b[n] + a[n + 1] * b[n + 1]
  {
  }

  function Dot(a: seq<real>, b: seq<real>): real
    requires |a| == |b|
  {
    DotTo(a, b, |a|)
  }

  /** Column `k` of a matrix. */
  function Column<T>(m: seq<seq<T>>, k: nat): (c: seq<T>)
    requires forall r :: 0 <= r < |m| ==> k < |m[r]|
    ensures |c| == |m| && forall r :: 0 <= r < |m| ==> c[r] == m[r][k]
  {
    seq(|m|, r requires 0 <= r < |m| => m[r][k])
  }

  function MatVec(a: seq<seq<real>>, x: seq<real>): (y: seq<real>)
    requires RowsOfLength(a, |x|)
    ensures |y| == |a|
  {
    seq(|a|, r requires 0 <= r < |a| => Dot(a[r], x))
  }

  /** The product of an `n` by `m` matrix and an `m` by `q` one. */
  function MatMul(a: seq<seq<real>>, b: seq<seq<real>>, q: nat): (c: seq<seq<real>>)
    requires RowsOfLength(a, |b|) && RowsOfLength(b, q)
    ensures |c| == |a| && RowsOfLength(c, q)
  {
    seq(|a|, i requires 0 <= i < |a| => seq(q, k requires 0 <= k < q => Dot(a[i], Column(b, k))))
  }

  function Identity(n: nat): (m: seq<seq<real>>)
    ensures IsSquare(m, n)
  {
    seq(n, i => seq(n, k => if i == k then 1.0 else 0.0))
  }

  lemma {:induction false} SumAdd(s: seq<real>, t: seq<real>, u: seq<real>, n: nat)
    requires n <= |s| && n <= |t| && n <= |u|
    requires forall k :: 0 <= k < n ==> u[k] == s[k] + t[k]
    ensures SumTo(u, n) == SumTo(s, n) + SumTo(t, n)
  {
    if n > 0 {
      SumAdd(s, t, u, n - 1);
    }
  }

  lemma {:induction false} SumZero(s: seq<real>, n: nat)
    requires n <= |s|
    requires forall k :: 0 <= k < n ==> s[k] == 0.0
    ensures SumTo(s, n) == 0.0
  {
    if n > 0 {
      SumZero(s, n - 1);
    }
  }

  /** A sum with a single nonzero term. */
  lemma {:induction false} SumUnit(s: seq<real>, a: nat, n: nat)
    requires a < n <= |s|
    requires forall k :: 0 <= k < n && k != a ==> s[k] == 0.0
    ensures SumTo(s, n) == s[a]
  {
    if n - 1 == a {
      SumZero(s, n - 1);
    } else {
      SumUnit(s, a, n - 1);
    }
  }

  lemma {:induction false} SumNeg(s: seq<real>, t: seq<real>, n: nat)
    requires n <= |s| && n <= |t|
    requires forall k :: 0 <= k < n ==> t[k] == -s[k]
    ensures SumTo(t, n) == -SumTo(s, n)
  {
    if n > 0 {
      SumNeg(s, t, n - 1);
    }
  }

  lemma {:induction false} DotAddLeft(a: seq<real>, b: seq<real>, c: seq<real>, x: seq<real>, n: nat)
    requires n <= |a| && n <= |b| && n <= |c| && n <= |x|
    requires forall k :: 0 <= k < n ==> c[k] == a[k] + b[k]
    ensures DotTo(c, x, n) == DotTo(a, x, n) + DotTo(b, x, n)
  {
    if n > 0 {
      DotAddLeft(a, b, c, x, n - 1);
      assert c[n - 1] * x[n - 1] == a[n - 1] * x[n - 1] + b[n - 1] * x[n - 1] by {
        assert c[n - 1] == a[n - 1] + b[n - 1];
      }
    }
  }

  lemma {:induction false} DotScaleLeft(a: seq<real>, s: real, b: seq<real>, x: seq<real>, n: nat)
    requires n <= |a| && n <= |b| && n <= |x|
    requires forall k :: 0 <= k < n ==> b[k] == s * a[k]
    ensures DotTo(b, x, n) == s * DotTo(a, x, n)
  {
    if n > 0 {
      DotScaleLeft(a, s, b, x, n - 1);
      assert b[n - 1] * x[n - 1] == s * (a[n - 1] * x[n - 1]) by {
        assert b[n - 1] == s * a[n - 1];
      }
    }
  }

  lemma {:induction false} DotZeroLeft(a: seq<real>, x: seq<real>, n: nat)
    requires n <= |a| && n <= |x|
    requires forall k :: 0 <= k < n ==> a[k] == 0.0
    ensures DotTo(a, x, n) == 0.0
  {
    if n > 0 {
      DotZeroLeft(a, x, n - 1);
    }
  }

  /** A dot product with a vector that is zero except at one place. */
  lemma {:induction false} DotUnitLeft(a: seq<real>, x: seq<real>, u: nat, n: nat)
    requires u < n <= |a| && n <= |x|
    requires forall k :: 0 <= k < n && k != u ==> a[k] == 0.0
    ensures DotTo(a, x, n) == a[u] * x[u]
  {
    if n - 1 == u {
      DotZeroLeft(a, x, n - 1);
    } else {
      DotUnitLeft(a, x, u, n - 1);
    }
  }

  /** The vector of column sums `sum_{j < n} z[j] * t[j][l]`, one per column `l < w`. */
  function ColumnDots(z: seq<real>, t: seq<seq<real>>, w: nat, n: nat): (r: seq<real>)
    requires n <= |z| && n <= |t| && RowsOfLength(t, w)
    ensures |r| == w
  {
    seq(w, l requires 0 <= l < w => DotTo(z, Column(t, l), n))
  }

  /** Exchanging the order of a double sum:
      sum_l (sum_j z[j] * t[j][l]) * x[l] == sum_j z[j] * (sum_l t[j][l] * x[l]). */
  lemma {:induction false} DotSwap(z: seq<real>, t: seq<seq<real>>, x: seq<real>, u: seq<real>, n: nat)
    requires n <= |z| && n <= |t| && RowsOfLength(t, |x|)
    requires n <= |u| && forall j :: 0 <= j < n ==> u[j] == Dot(t[j], x)
    ensures Dot(ColumnDots(z, t, |x|, n), x) == DotTo(z, u, n)
  {
    var w := ColumnDots(z, t, |x|, n);
    if n == 0 {
      DotZeroLeft(w, x, |x|);
    } else {
      var w' := ColumnDots(z, t, |x|, n - 1);
      var last := seq(|x|, l requires 0 <= l < |x| => z[n - 1] * t[n - 1][l]);
      DotSwap(z, t, x, u, n - 1);
      assert Dot(w, x) == Dot(w', x) + Dot(last, x) by {
        DotAddLeft(w', last, w, x, |x|);
      }
      assert Dot(last, x) == z[n - 1] * Dot(t[n - 1], x) by {
        DotScaleLeft(t[n - 1], z[n - 1], last, x, |x|);
      }
    }
  }

  lemma {:induction false} DotComm(a: seq<real>, b: seq<real>, n: nat)
    requires n <= |a| && n <= |b|
    ensures DotTo(a, b, n) == DotTo(b, a, n)
  {
    if n > 0 {
      DotComm(a, b, n - 1);
    }
  }

  /** Matrix multiplication is associative. */
  lemma MatMulAssoc(a: seq<seq<real>>, b: seq<seq<real>>, c: seq<seq<real>>, n: nat)
    requires IsSquare(a, n) && IsSquare(b, n) && IsSquare(c, n)
    ensures MatMul(MatMul(a, b, n), c, n) == MatMul(a, MatMul(b, c, n), n)
  {
    var ab := MatMul(a, b, n);
    var bc := MatMul(b, c, n);
    var l := MatMul(ab, c, n);
    var r := MatMul(a, bc, n);
    forall i | 0 <= i < n
      ensures l[i] == r[i]
    {
      forall k | 0 <= k < n
        ensures l[i][k] == r[i][k]
      {
        var x := Column(c, k);
        var u := Column(bc, k);
        assert ab[i] == ColumnDots(a[i], b, n, n);
        DotSwap(a[i], b, x, u, n);
      }
    }
  }

  /** The identity is a left unit of matrix multiplication. */
  lemma MatMulIdentityLeft(b: seq<seq<real>>, n: nat, q: nat)
    requires |b| == n && RowsOfLength(b, q)
    ensures MatMul(Identity(n), b, q) == b
  {
    var m := MatMul(Identity(n), b, q);
    forall i | 0 <= i < n
      ensures m[i] == b[i]
    {
      forall k | 0 <= k < q
        ensures m[i][k] == b[i][k]
      {
        DotUnitLeft(Identity(n)[i], Column(b, k), i, n);
      }
    }
  }

  /** The identity is a right unit of matrix multiplication. */
  lemma MatMulIdentityRight(a: seq<seq<real>>, n: nat)
    requires RowsOfLength(a, n)
    ensures MatMul(a, Identity(n), n) == a
  {
    var m := MatMul(a, Identity(n), n);
    forall i | 0 <= i < |a|
      ensures m[i] == a[i]
    {
      forall k | 0 <= k < n
        ensures m[i][k] == a[i][k]
      {
        var col := Column(Identity(n), k);
        DotComm(a[i], col, n);
        DotUnitLeft(col, a[i], k, n);
      }
    }
  }

  /** Two `n` by `n` matrices that agree cell by cell are equal. */
  lemma SquareSeq<T>(a: seq<seq<T>>, b: seq<seq<T>>, n: nat)
    requires IsSquare(a, n) && IsSquare(b, n)
    requires forall i, j :: 0 <= i < n && 0 <= j < n ==> a[i][j] == b[i][j]
    ensures a == b
  {
    forall i | 0 <= i < n
      ensures a[i] == b[i]
    {
      assert forall j :: 0 <= j < n ==> a[i][j] == b[i][j];
    }
  }

  // ------------------------------------------------------------- complex

  function CDotTo(a: seq<Complex>, b: seq<Complex>, n: nat): Complex
    requires n <= |a| && n <= |b|
  {
    if n == 0 then Zero else Add(CDotTo(a, b, n - 1), Mul(a[n - 1], b[n - 1]))
  }

  function CDot(a: seq<Complex>, b: seq<Complex>): Complex
    requires |a| == |b|
  {
    CDotTo(a, b, |a|)
  }

  function CMatVec(a: seq<seq<Complex>>, x: seq<Complex>): (y: seq<Complex>)
    requires RowsOfLength(a, |x|)
    ensures |y| == |a|
  {
    seq(|a|, r requires 0 <= r < |a| => CDot(a[r], x))
  }

  function CMatMul(a: seq<seq<Complex>>, b: seq<seq<Complex>>, q: nat): (c: seq<seq<Complex>>)
    requires RowsOfLength(a, |b|) && RowsOfLength(b, q)
    ensures |c| == |a| && RowsOfLength(c, q)
  {
    seq(|a|, i requires 0 <= i < |a| => seq(q, k requires 0 <= k < q => CDot(a[i], Column(b, k))))
  }

  function CIdentity(n: nat): (m: seq<seq<Complex>>)
    ensures IsSquare(m, n)
  {
    seq(n, i => seq(n, k => Delta(i, k)))
  }

  lemma {:induction false} CDotAddRight(a: seq<Complex>, b: seq<Complex>, c: seq<Complex>, d: seq<Complex>, n: nat)
    requires n <= |a| && n <= |b| && n <= |c| && n <= |d|
    requires forall k :: 0 <= k < n ==> d[k] == Add(b[k], c[k])
    ensures CDotTo(a, d, n) == Add(CDotTo(a, b, n), CDotTo(a, c, n))
  {
    if n > 0 {
      CDotAddRight(a, b, c, d, n - 1);
      MulAddRight(a[n - 1], b[n - 1], c[n - 1]);
    }
  }

  lemma {:induction false} CDotZeroRight(a: seq<Complex>, b: seq<Complex>, n: nat)
    requires n <= |a| && n <= |b|
    requires forall k :: 0 <= k < n ==> b[k] == Zero
    ensures CDotTo(a, b, n) == Zero
  {
    if n > 0 {
      CDotZeroRight(a, b, n - 1);
      MulZeroRight(a[n - 1]);
    }
  }

  lemma {:induction false} CDotZeroLeft(a: seq<Complex>, b: seq<Complex>, n: nat)
    requires n <= |a| && n <= |b|
    requires forall k :: 0 <= k < n ==> a[k] == Zero
    ensures CDotTo(a, b, n) == Zero
  {
    if n > 0 {
      CDotZeroLeft(a, b, n - 1);
    }
  }

  lemma {:induction false} CDotUnitRight(a: seq<Complex>, b: seq<Complex>, u: nat, n: nat)
    requires u < n <= |a| && n <= |b|
    requires forall k :: 0 <= k < n && k != u ==> b[k] == Zero
    ensures CDotTo(a, b, n) == Mul(a[u], b[u])
  {
    if n - 1 == u {
      CDotZeroRight(a, b, n - 1);
    } else {
      CDotUnitRight(a, b, u, n - 1);
      MulZeroRight(a[n - 1]);
    }
  }

  lemma {:induction false} CDotUnitLeft(a: seq<Complex>, b: seq<Complex>, u: nat, n: nat)
    requires u < n <= |a| && n <= |b|
    requires forall k :: 0 <= k < n && k != u ==> a[k] == Zero
    ensures CDotTo(a, b, n) == Mul(a[u], b[u])
  {
    if n - 1 == u {
      CDotZeroLeft(a, b, n - 1);
    } else {
      CDotUnitLeft(a, b, u, n - 1);
    }
  }

  /** A common right factor of every entry of `b` comes out of the dot
      product. */
  lemma {:induction false} CDotScaleRight(a: seq<Complex>, b: seq<Complex>, c: seq<Complex>, w: Complex, n: nat)
    requires n <= |a| && n <= |b| && n <= |c|
    requires forall k :: 0 <= k < n ==> c[k] == Mul(b[k], w)
    ensures CDotTo(a, c, n) == Mul(CDotTo(a, b, n), w)
  {
    if n == 0 {
      MulZeroLeft(w);
    } else {
      CDotScaleRight(a, b, c, w, n - 1);
      MulAssoc(a[n - 1], b[n - 1], w);
      MulAddLeft(CDotTo(a, b, n - 1), Mul(a[n - 1], b[n - 1]), w);
    }
  }

  // ------------------------------------------------------------- reshape

  /** The vector `s[:, k, l]` of a three-axis array. */
  function Fiber<T>(s: seq<seq<seq<T>>>, k: nat, l: nat): (r: seq<T>)
    requires forall j :: 0 <= j < |s| ==> k < |s[j]| && l < |s[j][k]|
    ensures |r| == |s| && forall j :: 0 <= j < |s| ==> r[j] == s[j][k][l]
  {
    seq(|s|, j requires 0 <= j < |s| => s[j][k][l])
  }

  lemma FiberInRange<T>(s: seq<seq<seq<T>>>, w: nat, k: nat, l: nat)
    requires forall j :: 0 <= j < |s| ==> k < |s[j]| && RowsOfLength(s[j], w)
    requires l < w
    ensures forall j :: 0 <= j < |s| ==> k < |s[j]| && l < |s[j][k]|
  {
    forall j | 0 <= j < |s|
      ensures k < |s[j]| && l < |s[j][k]|
    {
      assert RowsOfLength(s[j], w);
    }
  }

  /** Moving the splice point of `a[..k] + b[k..]` one place to the right. */
  lemma SpliceStep<T>(a: seq<T>, b: seq<T>, k: nat)
    requires 0 < k <= |a| && k <= |b|
    ensures (a[..k - 1] + b[k - 1..])[k - 1 := a[k - 1]] == a[..k] + b[k..]
  {
    assert forall j :: 0 <= j < |b| ==>
      (a[..k - 1] + b[k - 1..])[k - 1 := a[k - 1]][j] == (a[..k] + b[k..])[j];
  }

  /** Row-major reshape of a list of blocks into one list (`np.reshape`
      merging the two leading axes). */
  function Flatten<T>(s: seq<seq<T>>): seq<T>
  {
    if |s| == 0 then [] else s[0] + Flatten(s[1..])
  }

  /** The position of entry `r` of block `b` once blocks of length `w` are
      laid end to end, that is `b * w + r` (`RowMajorProduct`); written as
      repeated addition so that index reasoning stays linear. */
  function RowMajor(b: nat, r: nat, w: nat): nat
  {
    if b == 0 then r else w + RowMajor(b - 1, r, w)
  }

  lemma {:induction false} RowMajorProduct(b: nat, r: nat, w: nat)
    ensures RowMajor(b, r, w) == b * w + r
  {
    if b > 0 {
      RowMajorProduct(b - 1, r, w);
    }
  }

  /** Every position of `h` blocks of length `w` lies below `h * w`, which is
      `RowMajor(h, 0, w)`. */
  lemma {:induction false} RowMajorBound(b: nat, r: nat, w: nat, h: nat)
    requires b < h && r < w
    ensures RowMajor(b, r, w) < RowMajor(h, 0, w)
  {
    if b > 0 {
      RowMajorBound(b - 1, r, w, h - 1);
    } else if h > 1 {
      RowMajorBound(0, r, w, h - 1);
    }
  }

  lemma {:induction false} FlattenLength<T>(s: seq<seq<T>>, w: nat)
    requires RowsOfLength(s, w)
    ensures |Flatten(s)| == RowMajor(|s|, 0, w)
  {
    if |s| > 0 {
      FlattenLength(s[1..], w);
    }
  }

  /** Reshaping blocks of length `w` into one list puts entry `r` of block
      `b` at `RowMajor(b, r, w)`. */
  lemma {:induction false} FlattenAt<T>(s: seq<seq<T>>, w: nat, b: nat, r: nat)
    requires RowsOfLength(s, w) && b < |s| && r < w
    ensures RowMajor(b, r, w) < |Flatten(s)|
    ensures Flatten(s)[RowMajor(b, r, w)] == s[b][r]
  {
    FlattenLength(s, w);
    RowMajorBound(b, r, w, |s|);
    if b > 0 {
      FlattenAt(s[1..], w, b - 1, r);
    }
  }

  /** `FlattenAt` for every entry at once. */
  lemma FlattenIndex<T>(s: seq<seq<T>>, w: nat)
    requires RowsOfLength(s, w)
    ensures |Flatten(s)| == RowMajor(|s|, 0, w)
    ensures forall b, r :: 0 <= b < |s| && 0 <= r < w ==> RowMajor(b, r, w) < |Flatten(s)|
    ensures forall b, r :: 0 <= b < |s| && 0 <= r < w ==> Flatten(s)[RowMajor(b, r, w)] == s[b][r]
  {
    FlattenLength(s, w);
    forall b, r | 0 <= b < |s| && 0 <= r < w
      ensures RowMajor(b, r, w) < |Flatten(s)| && Flatten(s)[RowMajor(b, r, w)] == s[b][r]
    {
      FlattenAt(s, w, b, r);
    }
  }

  /** Reshaping a stack of `h` by `w` blocks, each already reshaped into
      `blocks[o]`, puts entry `(i, k)` of block `o` at
      `RowMajor(o, RowMajor(i, k, w), RowMajor(h, 0, w))`. */
  lemma {:induction false} FlattenStackAt<T>(s: seq<seq<seq<T>>>, blocks: seq<seq<T>>, h: nat, w: nat,
                                              o: nat, i: nat, k: nat)
    requires forall o :: 0 <= o < |s| ==> |s[o]| == h
    requires forall o, i :: 0 <= o < |s| && 0 <= i < h ==> |s[o][i]| == w
    requires |blocks| == |s| && forall o :: 0 <= o < |s| ==> blocks[o] == Flatten(s[o])
    requires o < |s| && i < h && k < w
    ensures RowMajor(o, RowMajor(i, k, w), RowMajor(h, 0, w)) < |Flatten(blocks)|
    ensures Flatten(blocks)[RowMajor(o, RowMajor(i, k, w), RowMajor(h, 0, w))] == s[o][i][k]
  {
    var hw := RowMajor(h, 0, w);
    forall o | 0 <= o < |s|
      ensures |blocks[o]| == hw
    {
      FlattenLength(s[o], w);
    }
    FlattenAt(s[o], w, i, k);
    RowMajorBound(i, k, w, h);
    FlattenAt(blocks, hw, o, RowMajor(i, k, w));
  }

  /** `FlattenStackAt` for every entry at once. */
  lemma FlattenStackIndex<T>(s: seq<seq<seq<T>>>, blocks: seq<seq<T>>, h: nat, w: nat)
    requires forall o :: 0 <= o < |s| ==> |s[o]| == h
    requires forall o, i :: 0 <= o < |s| && 0 <= i < h ==> |s[o][i]| == w
    requires |blocks| == |s| && forall o :: 0 <= o < |s| ==> blocks[o] == Flatten(s[o])
    ensures |Flatten(blocks)| == RowMajor(|s|, 0, RowMajor(h, 0, w))
    ensures forall o, i, k :: 0 <= o < |s| && 0 <= i < h && 0 <= k < w ==>
              RowMajor(o, RowMajor(i, k, w), RowMajor(h, 0, w)) < |Flatten(blocks)|
    ensures forall o, i, k :: 0 <= o < |s| && 0 <= i < h && 0 <= k < w ==>
              Flatten(blocks)[RowMajor(o, RowMajor(i, k, w), RowMajor(h, 0, w))] == s[o][i][k]
  {
    forall o | 0 <= o < |s|
      ensures |blocks[o]| == RowMajor(h, 0, w)
    {
      FlattenLength(s[o], w);
    }
    FlattenLength(blocks, RowMajor(h, 0, w));
    forall o, i, k | 0 <= o < |s| && 0 <= i < h && 0 <= k < w
      ensures RowMajor(o, RowMajor(i, k, w), RowMajor(h, 0, w)) < |Flatten(blocks)|
    {
      FlattenStackAt(s, blocks, h, w, o, i, k);
    }
    forall o, i, k | 0 <= o < |s| && 0 <= i < h && 0 <= k < w
      ensures Flatten(blocks)[RowMajor(o, RowMajor(i, k, w), RowMajor(h, 0, w))] == s[o][i][k]
    {
      FlattenStackAt(s, blocks, h, w, o, i, k);
    }
  }

  lemma {:induction false} FlattenSameShape<T, U>(s: seq<seq<T>>, t: seq<seq<U>>)
    requires |s| == |t| && forall i :: 0 <= i < |s| ==> |s[i]| == |t[i]|
    ensures |Flatten(s)| == |Flatten(t)|
  {
    if |s| > 0 {
      FlattenSameShape(s[1..], t[1..]);
    }
  }

  /** Two lists of blocks of the same shape reshape to the same list only
      when they are equal. */
  lemma {:induction false} FlattenInjective<T>(s: seq<seq<T>>, t: seq<seq<T>>)
    requires |s| == |t| && forall i :: 0 <= i < |s| ==> |s[i]| == |t[i]|
    requires Flatten(s) == Flatten(t)
    ensures s == t
  {
    if |s| > 0 {
      var w := |s[0]|;
      assert s[0] == Flatten(s)[..w];
      assert t[0] == Flatten(t)[..w];
      assert Flatten(s[1..]) == Flatten(s)[w..];
      assert Flatten(t[1..]) == Flatten(t)[w..];
      FlattenInjective(s[1..], t[1..]);
      assert s == [s[0]] + s[1..];
      assert t == [t[0]] + t[1..];
    }
  }

  /** Flattening a stack of blocks, then the stack, loses nothing: two
      stacks of the same shape flatten to the same list exactly when they
      are equal. */
  lemma FlattenStacksInjective<T>(s: seq<seq<seq<T>>>, t: seq<seq<seq<T>>>)
    requires |s| == |t|
    requires forall o :: 0 <= o < |s| ==> |s[o]| == |t[o]|
    requires forall o, i :: 0 <= o < |s| && 0 <= i < |s[o]| ==> |s[o][i]| == |t[o][i]|
    ensures Flatten(seq(|s|, o requires 0 <= o < |s| => Flatten(s[o])))
         == Flatten(seq(|t|, o requires 0 <= o < |t| => Flatten(t[o])))
        <==> s == t
  {
    var fs := seq(|s|, o requires 0 <= o < |s| => Flatten(s[o]));
    var ft := seq(|t|, o requires 0 <= o < |t| => Flatten(t[o]));
    if Flatten(fs) == Flatten(ft) {
      forall o | 0 <= o < |s|
        ensures |fs[o]| == |ft[o]|
      {
        FlattenSameShape(s[o], t[o]);
      }
      FlattenInjective(fs, ft);
      forall o | 0 <= o < |s|
        ensures s[o] == t[o]
      {
        assert fs[o] == ft[o];
        FlattenInjective(s[o], t[o]);
      }
    }
  }

  lemma {:induction false} FlattenRows<T>(s: seq<seq<seq<T>>>, w: nat)
    requires forall b :: 0 <= b < |s| ==> RowsOfLength(s[b], w)
    ensures RowsOfLength(Flatten(s), w)
  {
    if |s| > 0 {
      FlattenRows(s[1..], w);
    }
  }

  /** Every block of every stack keeps rows of length `w` once flattened. */
  lemma FlattenStacks<T>(s: seq<seq<seq<seq<T>>>>, w: nat)
    requires forall o :: 0 <= o < |s| ==> forall b :: 0 <= b < |s[o]| ==> RowsOfLength(s[o][b], w)
    ensures forall o :: 0 <= o < |s| ==> RowsOfLength(Flatten(s[o]), w)
  {
    forall o | 0 <= o < |s|
      ensures RowsOfLength(Flatten(s[o]), w)
    {
      FlattenRows(s[o], w);
    }
  }

  lemma {:induction false} MatVecFlatten(s: seq<seq<seq<real>>>, x: seq<real>)
    requires forall b :: 0 <= b < |s| ==> RowsOfLength(s[b], |x|)
    ensures RowsOfLength(Flatten(s), |x|)
    ensures MatVec(Flatten(s), x) == Flatten(seq(|s|, b requires 0 <= b < |s| => MatVec(s[b], x)))
  {
    FlattenRows(s, |x|);
    if |s| > 0 {
      MatVecFlatten(s[1..], x);
      assert Flatten(s) == s[0] + Flatten(s[1..]);
      FlattenRows(s[1..], |x|);
      var ms := seq(|s|, b requires 0 <= b < |s| => MatVec(s[b], x));
      assert ms[1..] == seq(|s[1..]|, b requires 0 <= b < |s[1..]| => MatVec(s[1..][b], x));
    }
  }

  lemma {:induction false} CMatVecFlatten(s: seq<seq<seq<Complex>>>, x: seq<Complex>)
    requires forall b :: 0 <= b < |s| ==> RowsOfLength(s[b], |x|)
    ensures RowsOfLength(Flatten(s), |x|)
    ensures CMatVec(Flatten(s), x) == Flatten(seq(|s|, b requires 0 <= b < |s| => CMatVec(s[b], x)))
  {
    FlattenRows(s, |x|);
    if |s| > 0 {
      CMatVecFlatten(s[1..], x);
      assert Flatten(s) == s[0] + Flatten(s[1..]);
      FlattenRows(s[1..], |x|);
      var ms := seq(|s|, b requires 0 <= b < |s| => CMatVec(s[b], x));
      assert ms[1..] == seq(|s[1..]|, b requires 0 <= b < |s[1..]| => CMatVec(s[1..][b], x));
    }
  }
}
