/** Facts about multiplication, division and remainder that the decoders'
    address arithmetic and the number formatting rely on. */
module Arith {

  lemma MulMono(d: nat, a: nat, b: nat)
    requires a <= b
    ensures d * a <= d * b
  {
    assert d * b == d * a + d * (b - a);
  }

  lemma MulMonoIf(d: nat, a: nat, b: nat)
    ensures a <= b ==> d * a <= d * b
  {
    if a <= b {
      MulMono(d, a, b);
    }
  }

  /** The quotient is the unique q with n == d * q + r and 0 <= r < d. */
  lemma DivUnique(n: nat, d: nat, q: nat, r: nat)
    requires d >= 1 && r < d && n == d * q + r
    ensures n / d == q
  {
    var q' := n / d;
    assert n == d * q' + n % d;
    assert d * (q' + 1) == d * q' + d;
    assert d * (q + 1) == d * q + d;
    MulMonoIf(d, q' + 1, q);
    MulMonoIf(d, q + 1, q');
  }

  /** The remainder is the unique r with n == d * q + r and 0 <= r < d. */
  lemma ModUnique(n: nat, d: nat, q: nat, r: nat)
    requires d >= 1 && r < d && n == d * q + r
    ensures n % d == r
  {
    DivUnique(n, d, q, r);
    assert n == d * (n / d) + n % d;
  }
}
