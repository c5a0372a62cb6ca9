/** Multiplication and division facts that the solver does not find on its own. */
module Arithmetic {

  lemma {:induction false} ScaleOrder(x: int, y: int, q: nat)
    requires x <= y
    ensures x * q <= y * q
  {
    if q > 0 {
      ScaleOrder(x, y, q - 1);
      assert x * q == x * (q - 1) + x;
      assert y * q == y * (q - 1) + y;
    }
  }

  lemma ScaleOrderIff(x: int, y: int, q: nat)
    requires q > 0
    ensures x <= y <==> x * q <= y * q
  {
    if x <= y {
      ScaleOrder(x, y, q);
    } else {
      ScaleOrder(y + 1, x, q);
      assert (y + 1) * q == y * q + q;
    }
  }

  lemma Cancel(x: int, y: int, q: nat)
    requires q > 0 && x * q == y * q
    ensures x == y
  {
    ScaleOrderIff(x, y, q);
    ScaleOrderIff(y, x, q);
  }

  /** The quotient and the remainder are the only ones that fit. */
  lemma DivModUnique(n: int, q: int, r: int, d: nat)
    requires n == q * d + r && 0 <= r < d
    ensures n / d == q && n % d == r
  {
    var p := n / d;
    assert n == p * d + n % d;
    assert (q + 1) * d == q * d + d && (p + 1) * d == p * d + d;
    ScaleOrderIff(q + 1, p, d);
    ScaleOrderIff(p + 1, q, d);
  }

  lemma ModAddMultiple(a: nat, k: nat, d: nat)
    requires d > 0
    ensures (a + k * d) % d == a % d
  {
    assert a == (a / d) * d + a % d;
    assert (a / d + k) * d == (a / d) * d + k * d;
    DivModUnique(a + k * d, a / d + k, a % d, d);
  }
}
