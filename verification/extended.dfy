/** Numbers as the maximum scans see them: a finite value or the float
    `-inf` that both scans start from (scripts/clean_data.py:27 and :42).
    IEEE details (NaN, +inf, rounding) are not modelled; finite values are reals.
 */
module Extended {

  datatype ExtReal = NegInf | Fin(v: real)

  /** `a <= b` on the extended line: `-inf` is below everything. */
  predicate Le(a: ExtReal, b: ExtReal) {
    a.NegInf? || (b.Fin? && a.v <= b.v)
  }

  /** Python's `max(a, b)`: the first argument unless the second is strictly larger. */
  function Max(a: ExtReal, b: ExtReal): (r: ExtReal)
    ensures r == a || r == b
    ensures Le(a, r) && Le(b, r)
  {
    if Le(b, a) then a else b
  }

  /** `m` is the maximum of `xs`, with `-inf` standing for the maximum of no
      finite value: `m` bounds every element and is one of them or `-inf`. */
  predicate IsMax(m: ExtReal, xs: seq<ExtReal>) {
    && (forall i :: 0 <= i < |xs| ==> Le(xs[i], m))
    && (m == NegInf || m in xs)
  }

  lemma LeTransitive(a: ExtReal, b: ExtReal, c: ExtReal)
    requires Le(a, b) && Le(b, c)
    ensures Le(a, c)
  {
  }

  /** A sequence has at most one maximum. */
  lemma IsMaxUnique(m1: ExtReal, m2: ExtReal, xs: seq<ExtReal>)
    requires IsMax(m1, xs) && IsMax(m2, xs)
    ensures m1 == m2
  {
    if m1 in xs {
      var i :| 0 <= i < |xs| && xs[i] == m1;
    }
    if m2 in xs {
      var j :| 0 <= j < |xs| && xs[j] == m2;
    }
  }

  /** Starting a scan from the `-inf` sentinel does not change its maximum. */
  lemma IsMaxSentinel(m: ExtReal, xs: seq<ExtReal>)
    ensures IsMax(m, [NegInf] + xs) <==> IsMax(m, xs)
  {
    if IsMax(m, [NegInf] + xs) {
      forall i | 0 <= i < |xs|
        ensures Le(xs[i], m)
      {
        assert xs[i] == ([NegInf] + xs)[i + 1];
      }
    }
    if IsMax(m, xs) {
      assert forall i :: 0 <= i < |xs| ==> xs[i] == ([NegInf] + xs)[i + 1];
    }
  }

  /** The scan invariant: if `m` is the maximum of `acc` and `xs`, and `r` the
      maximum of `m` and `ys`, then `r` is the maximum of `acc`, `xs` and `ys`. */
  lemma IsMaxChain(acc: ExtReal, m: ExtReal, r: ExtReal, xs: seq<ExtReal>, ys: seq<ExtReal>)
    requires IsMax(m, [acc] + xs)
    requires IsMax(r, [m] + ys)
    ensures IsMax(r, [acc] + xs + ys)
  {
    var all := [acc] + xs + ys;
    assert Le(m, r) by { assert ([m] + ys)[0] == m; }
    forall i | 0 <= i < |all|
      ensures Le(all[i], r)
    {
      if i < 1 + |xs| {
        assert all[i] == ([acc] + xs)[i];
        LeTransitive(all[i], m, r);
      } else {
        assert all[i] == ([m] + ys)[i - |xs|];
      }
    }
    if r != NegInf {
      assert r in [m] + ys;
      if r == m {
        assert m in [acc] + xs;
      }
    }
  }
}
