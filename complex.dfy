/** Exact complex numbers over `real`, enough for the frequency-domain
    system matrix and the capacitance fit (frequencies are complex). */
module ComplexNumbers {

  datatype Complex = Complex(re: real, im: real)

  const Zero: Complex := Complex(0.0, 0.0)
  const One: Complex := Complex(1.0, 0.0)

  /** A real number seen as a complex one (numpy's `astype(complex)`). */
  function FromReal(r: real): Complex
  {
    Complex(r, 0.0)
  }

  function Add(a: Complex, b: Complex): Complex
  {
    Complex(a.re + b.re, a.im + b.im)
  }

  function Sub(a: Complex, b: Complex): Complex
  {
    Complex(a.re - b.re, a.im - b.im)
  }

  function Mul(a: Complex, b: Complex): Complex
  {
    Complex(a.re * b.re - a.im * b.im, a.re * b.im + a.im * b.re)
  }

  /** A complex number times a real one (`freqs * node.ca`). */
  function Scale(a: Complex, r: real): Complex
  {
    Complex(a.re * r, a.im * r)
  }

  /** 1 on the diagonal, 0 elsewhere, as a complex entry of `np.eye`. */
  function Delta(i: int, k: int): Complex
  {
    if i == k then One else Zero
  }

  lemma MulZeroRight(a: Complex)
    ensures Mul(a, Zero) == Zero
  {
  }

  lemma MulAddRight(a: Complex, b: Complex, c: Complex)
    ensures Mul(a, Add(b, c)) == Add(Mul(a, b), Mul(a, c))
  {
  }

  lemma MulAssoc(a: Complex, b: Complex, c: Complex)
    ensures Mul(Mul(a, b), c) == Mul(a, Mul(b, c))
  {
    assert (a.re * b.re - a.im * b.im) * c.re - (a.re * b.im + a.im * b.re) * c.im
        == a.re * (b.re * c.re - b.im * c.im) - a.im * (b.re * c.im + b.im * c.re);
    assert (a.re * b.re - a.im * b.im) * c.im + (a.re * b.im + a.im * b.re) * c.re
        == a.re * (b.re * c.im + b.im * c.re) + a.im * (b.re * c.re - b.im * c.im);
  }

  lemma MulFromReal(a: Complex, r: real)
    ensures Mul(a, FromReal(r)) == Scale(a, r)
  {
  }

  lemma MulZeroLeft(a: Complex)
    ensures Mul(Zero, a) == Zero
  {
  }

  lemma MulOneLeft(a: Complex)
    ensures Mul(One, a) == a
  {
  }

  lemma MulAddLeft(a: Complex, b: Complex, c: Complex)
    ensures Mul(Add(a, b), c) == Add(Mul(a, c), Mul(b, c))
  {
  }

  /** Scaling by a nonzero number loses nothing. */
  lemma ScaleCancel(w: Complex, x: real, y: real)
    requires w != Zero
    ensures Scale(w, x) == Scale(w, y) <==> x == y
  {
    if Scale(w, x) == Scale(w, y) {
      if w.re != 0.0 {
        assert w.re * (x - y) == 0.0;
      } else {
        assert w.im * (x - y) == 0.0;
      }
    }
  }
}
