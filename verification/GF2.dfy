/** Polynomials over GF(2): coefficient lists, highest power first. */
module GF2 {

  type Poly = seq<bool>

  function Zero(n: nat): (r: Poly)
    ensures |r| == n && forall i | 0 <= i < n :: !r[i]
  {
    seq(n, _ => false)
  }

  /** The number a bit string denotes, highest bit first. */
  function Value(a: Poly): nat {
    if a == [] then 0 else 2 * Value(a[..|a| - 1]) + if a[|a| - 1] then 1 else 0
  }

  function Xor(a: Poly, b: Poly): (r: Poly)
    requires |a| == |b|
    ensures |r| == |a| && forall i {:trigger r[i]} | 0 <= i < |a| :: r[i] == (a[i] != b[i])
  {
    seq(|a|, i requires 0 <= i < |a| => a[i] != b[i])
  }

  function Scale(c: bool, a: Poly): (r: Poly)
    ensures |r| == |a| && forall i {:trigger r[i]} | 0 <= i < |a| :: r[i] == (c && a[i])
  {
    if c then a else Zero(|a|)
  }

  /** The product, by (q * x + c) * g == (q * g) * x + c * g. */
  function Mul(q: Poly, g: Poly): (r: Poly)
    requires |g| > 0
    ensures |r| == |q| + |g| - 1
  {
    if q == [] then Zero(|g| - 1)
    else
      var n := |q| - 1;
      Xor(Mul(q[..n], g) + [false], Zero(n) + Scale(q[n], g))
  }

  /** m(x) * x^d == q(x) * g(x) + r(x) with d the degree of g and r of lower degree. */
  ghost predicate IsDivision(m: Poly, g: Poly, q: Poly, r: Poly)
    requires |g| > 0
  {
    && |q| == |m|
    && |r| == |g| - 1
    && m + Zero(|g| - 1) == Xor(Mul(q, g), Zero(|m|) + r)
  }

  ghost predicate HasRemainder(m: Poly, g: Poly, r: Poly)
    requires |g| > 0
  {
    exists q :: IsDivision(m, g, q, r)
  }

  lemma {:induction false} MulZero(n: nat, g: Poly)
    requires |g| > 0
    ensures Mul(Zero(n), g) == Zero(n + |g| - 1)
  {
    if n > 0 {
      assert Zero(n)[..n - 1] == Zero(n - 1);
      MulZero(n - 1, g);
    }
  }

  lemma {:induction false} MulDistributes(a: Poly, b: Poly, g: Poly)
    requires |g| > 0 && |a| == |b|
    ensures Mul(Xor(a, b), g) == Xor(Mul(a, g), Mul(b, g))
  {
    if a != [] {
      var n := |a| - 1;
      assert Xor(a, b)[..n] == Xor(a[..n], b[..n]);
      MulDistributes(a[..n], b[..n], g);
    }
  }

  /** The leading term of q survives multiplication by a monic g. */
  lemma {:induction false} LeadingTerm(q: Poly, g: Poly) returns (k: nat)
    requires |g| > 0 && g[0] && q != Zero(|q|)
    ensures k < |q| && Mul(q, g)[k]
  {
    var n := |q| - 1;
    if q[..n] == Zero(n) {
      k := n;
      MulZero(n, g);
      var i :| 0 <= i < |q| && q[i];
    } else {
      k := LeadingTerm(q[..n], g);
    }
  }

  /** Division by a monic polynomial has one quotient and one remainder. */
  lemma DivisionUnique(m: Poly, g: Poly, q: Poly, r: Poly, q': Poly, r': Poly)
    requires |g| > 0 && g[0]
    requires IsDivision(m, g, q, r) && IsDivision(m, g, q', r')
    ensures q == q' && r == r'
  {
    var d := Xor(q, q');
    MulDistributes(q, q', g);
    var n := |m|;
    forall k | 0 <= k < n
      ensures !Mul(d, g)[k]
    {
      assert (m + Zero(|g| - 1))[k] == Xor(Mul(q, g), Zero(n) + r)[k] == Xor(Mul(q', g), Zero(n) + r')[k];
    }
    if d != Zero(|d|) {
      var k := LeadingTerm(d, g);
      assert false;
    }
    assert q == q' by {
      forall i | 0 <= i < |q|
        ensures q[i] == q'[i]
      {
        assert !d[i];
      }
    }
    forall i | 0 <= i < |r|
      ensures r[i] == r'[i]
    {
      assert Xor(Mul(q, g), Zero(n) + r)[n + i] == Xor(Mul(q', g), Zero(n) + r')[n + i];
    }
  }
}
