/** Facts about products and remainders that several models share. */
module Arithmetic {
  lemma {:induction false} ProductGrows(a: nat, b: nat, c: nat)
    requires a <= b
    ensures a * c <= b * c
    decreases b
  {
    if a < b {
      ProductGrows(a, b - 1, c);
      assert b * c == (b - 1) * c + c;
    }
  }

  /** In a two-digit number the head decides. */
  lemma HeadDecides(x: nat, y: nat, p: nat, u: nat, v: nat)
    requires u < p && v < p
    ensures x < y ==> x * p + u < y * p + v
    ensures y < x ==> y * p + v < x * p + u
  {
    if x < y {
      ProductGrows(x + 1, y, p);
      assert (x + 1) * p == x * p + p;
    }
    if y < x {
      ProductGrows(y + 1, x, p);
      assert (y + 1) * p == y * p + p;
    }
  }

  lemma IsRemainder(x: nat, n: nat, a: nat, c: nat)
    requires n > 0 && x == n * a + c && c < n
    ensures x % n == c
  {
    HeadDecides(a, x / n, n, c, x % n);
    assert x == x / n * n + x % n;
    assert n * a == a * n;
  }
}
