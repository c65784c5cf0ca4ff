/** Facts about remainders that the models share. */
module Arith {

  lemma MulAtLeast(n: nat, k: nat)
    requires k >= 1
    ensures n * k >= n
  {
    assert n * k == n * (k - 1) + n;
    assert n * (k - 1) >= 0;
  }

  lemma DivModUnique(x: nat, n: nat, q: nat, r: nat)
    requires n > 0 && r < n && x == n * q + r
    ensures x / n == q && x % n == r
  {
    var q0, r0 := x / n, x % n;
    assert x == n * q0 + r0;
    if q < q0 {
      assert n * (q0 - q) == n * q0 - n * q;
      MulAtLeast(n, q0 - q);
    } else if q0 < q {
      assert n * (q - q0) == n * q - n * q0;
      MulAtLeast(n, q - q0);
    }
  }

  // Adding a multiple of n does not change the remainder.
  lemma ModShift(a: nat, n: nat, k: nat)
    requires n > 0
    ensures (a + n * k) % n == a % n
  {
    var q, r := a / n, a % n;
    assert a == n * q + r;
    assert n * (q + k) == n * q + n * k;
    DivModUnique(a + n * k, n, q + k, r);
  }

  // Numbers less than n apart have different remainders.
  lemma ModDistinct(a: nat, b: nat, n: nat)
    requires n > 0 && a < b < a + n
    ensures a % n != b % n
  {
    var r := a % n;
    if r + (b - a) < n {
      assert a == n * (a / n) + r;
      DivModUnique(b, n, a / n, r + (b - a));
    } else {
      assert a == n * (a / n) + r;
      assert n * (a / n + 1) == n * (a / n) + n;
      DivModUnique(b, n, a / n + 1, r + (b - a) - n);
    }
  }

  // Reducing first modulo a multiple of n changes nothing modulo n.
  lemma ModMod(x: nat, w: nat, n: nat)
    requires n > 0 && w > 0 && w % n == 0
    ensures (x % w) % n == x % n
  {
    var k, c, r := w / n, x / w, x % w;
    assert w == n * k;
    assert x == w * c + r;
    MulAssoc(n, k, c);
    ModShift(r, n, k * c);
    assert r + n * (k * c) == x;
  }

  lemma MulAssoc(a: nat, b: nat, c: nat)
    ensures a * b * c == a * (b * c)
  {
  }
}
