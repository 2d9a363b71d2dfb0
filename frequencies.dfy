/** Finding the steady state among the sampled frequencies
    (compartmenttree.py, `computeGC`): a frequency counts as zero when its
    modulus is below `1e-12`, and the steady-state impedance matrix is the
    one sampled at such a frequency. */
module Frequencies {
  import opened ComplexNumbers
  import opened Wrappers

  /** The tolerance below which a frequency's modulus counts as zero. */
  const ZeroTolerance: real := 0.000000000001

  /** `abs(f) < 1e-12`, squared so that no square root is needed. */
  predicate NearZero(f: Complex)
  {
    f.re * f.re + f.im * f.im < ZeroTolerance * ZeroTolerance
  }

  /** `np.where(np.abs(freqs) < 1e-12)[0]` over the first `n` frequencies:
      the indices of the near-zero ones, in increasing order. */
  function ZeroFrequenciesUpTo(freqs: seq<Complex>, n: nat): (ix: seq<nat>)
    requires n <= |freqs|
    ensures forall a, b :: 0 <= a < b < |ix| ==> ix[a] < ix[b]
    ensures forall a :: 0 <= a < |ix| ==> ix[a] < n && NearZero(freqs[ix[a]])
    ensures forall k :: 0 <= k < n && NearZero(freqs[k]) ==> k in ix
  {
    if n == 0 then []
    else
      var rest := ZeroFrequenciesUpTo(freqs, n - 1);
      if NearZero(freqs[n - 1]) then rest + [n - 1] else rest
  }

  function ZeroFrequencies(freqs: seq<Complex>): (ix: seq<nat>)
  {
    ZeroFrequenciesUpTo(freqs, |freqs|)
  }

  /** The documented lookup: the first near-zero frequency, or `None` (the
      documented `ValueError`) when there is none. */
  function SteadyStateIndex(freqs: seq<Complex>): (r: Option<nat>)
    ensures r.None? <==> forall k :: 0 <= k < |freqs| ==> !NearZero(freqs[k])
    ensures r.Some? ==> r.value < |freqs| && NearZero(freqs[r.value])
    ensures r.Some? ==> forall k :: 0 <= k < r.value ==> !NearZero(freqs[k])
  {
    var ix := ZeroFrequencies(freqs);
    if |ix| == 0 then None
    else
      assert forall k :: 0 <= k < ix[0] && NearZero(freqs[k]) ==> k in ix;
      Some(ix[0])
  }
}
