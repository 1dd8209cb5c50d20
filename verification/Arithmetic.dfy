/** Integer division and remainder, by multiplication facts the solver does not find by itself. */
module Arithmetic {
  lemma MulStep(a: int, b: int, m: int)
    requires m > 0
    ensures a < b ==> a * m + m <= b * m
  {
    if a < b {
      var k := b - a - 1;
      assert k * m >= 0;
      assert b * m == (a + 1 + k) * m == a * m + m + k * m;
    }
  }

  lemma MulMono(a: int, b: int, m: int)
    requires m >= 0 && a <= b
    ensures a * m <= b * m
  {
    assert (b - a) * m >= 0;
    assert b * m == a * m + (b - a) * m;
  }

  lemma DivUnique(x: int, m: int, q: int)
    requires m > 0 && q * m <= x < q * m + m
    ensures x / m == q
  {
    var d, r := x / m, x % m;
    assert x == d * m + r;
    MulStep(d, q, m);
    MulStep(q, d, m);
  }

  lemma DivBound(x: nat, a: nat, b: nat)
    requires b > 0 && x < a * b
    ensures x / b < a
  {
    assert x == (x / b) * b + x % b;
    MulStep(a - 1, x / b, b);
  }

  lemma MulAssoc(a: int, b: int, c: int)
    ensures (a * b) * c == a * (b * c)
  {
  }

  lemma MulDistrib(a: int, b: int, c: int)
    ensures (a + b) * c == a * c + b * c
  {
  }

  lemma DivDiv(x: nat, a: nat, b: nat)
    requires a > 0 && b > 0
    ensures a * b > 0 && x / a / b == x / (a * b)
  {
    var y, t := x / a, x % a;
    var q, s := y / b, y % b;
    MulMono(1, b, a);
    assert x == y * a + t && y == q * b + s;
    MulDistrib(q * b, s, a);
    MulAssoc(q, b, a);
    MulMono(s, b - 1, a);
    MulDistrib(b, -1, a);
    DivUnique(x, a * b, q);
  }

  lemma DivRecompose(x: int, m: int)
    requires m > 0
    ensures x == (x / m) * m + x % m
  {
  }

  /** x lies in the block of m numbers starting at a multiple of m exactly when the quotients agree. */
  lemma SameBlock(a: int, x: int, m: int)
    requires m > 0 && a % m == 0
    ensures a <= x < a + m <==> x / m == a / m
    ensures a == (a / m) * m
  {
    DivRecompose(a, m);
    DivRecompose(x, m);
    if a <= x < a + m {
      DivUnique(x, m, a / m);
    }
  }

  lemma ModAddMultiple(x: int, k: int, m: int)
    requires m > 0
    ensures (x + k * m) % m == x % m
  {
    var q := x / m;
    assert x == q * m + x % m;
    assert x + k * m == (q + k) * m + x % m;
    DivUnique(x + k * m, m, q + k);
  }

  /** A remainder may be taken early. */
  lemma ModOfSum(x: int, y: int, m: int)
    requires m > 0
    ensures (x % m + y) % m == (x + y) % m
  {
    assert x == (x / m) * m + x % m;
    ModAddMultiple(x % m + y, x / m, m);
  }

  /** The remainder by a multiple of m has the same remainder by m. */
  lemma ModOfMod(x: int, m: int, k: int)
    requires m > 0 && k > 0
    ensures m * k > 0 && x % (m * k) % m == x % m
  {
    assert m * k > 0;
    var q := x / (m * k);
    assert x == q * (m * k) + x % (m * k);
    assert q * (m * k) == (q * k) * m;
    ModAddMultiple(x % (m * k), q * k, m);
  }
}
