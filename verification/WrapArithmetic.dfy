/** Division and remainder facts the ring buffers and block arithmetic share. */
module WrapArithmetic {

  lemma MulAway(k: int, d: nat)
    requires d > 0 && k != 0
    ensures k * d >= d || k * d + d <= 0
  {
    if k >= 1 {
      assert (k - 1) * d >= 0;
    } else {
      assert (-k - 1) * d >= 0;
    }
  }

  lemma DivModUnique(n: int, q: int, r: nat, d: nat)
    requires n == q * d + r && r < d
    ensures n / d == q && n % d == r
  {
    var k := n / d - q;
    assert k * d == r - n % d;
    if k != 0 {
      MulAway(k, d);
    }
  }

  lemma DivModOf(n: int, d: nat)
    requires d > 0
    ensures n == n / d * d + n % d
  {
  }

  lemma ModNext(n: nat, d: nat)
    requires d > 0
    ensures (n % d + 1) % d == (n + 1) % d
  {
    DivModOf(n, d);
    var q, r := n / d, n % d;
    if r + 1 < d {
      DivModUnique(n + 1, q, r + 1, d);
    } else {
      assert (q + 1) * d == q * d + d;
      DivModUnique(n + 1, q + 1, 0, d);
    }
  }

  /** Two counters less than a wrap apart agree modulo the wrap only when they are equal. */
  lemma ModEqual(a: nat, b: nat, d: nat)
    requires d > 0 && a <= b < a + d
    ensures a % d == b % d <==> a == b
  {
    DivModOf(a, d);
    DivModOf(b, d);
    var k := b / d - a / d;
    if k != 0 && a % d == b % d {
      assert k * d == b - a;
      MulAway(k, d);
    }
  }

  /** Reducing by a multiple of `d` first changes nothing modulo `d`. */
  lemma ModOfMod(n: nat, m: nat, d: nat)
    requires d > 0 && m > 0
    ensures m * d > 0 && (n % (m * d)) % d == n % d
  {
    assert m * d > 0;
    DivModOf(n, m * d);
    var q, r := n / (m * d), n % (m * d);
    DivModOf(r, d);
    assert q * (m * d) == (q * m) * d;
    assert n == (q * m + r / d) * d + r % d;
    DivModUnique(n, q * m + r / d, r % d, d);
  }

  /** Reducing one summand first changes nothing. */
  lemma ModShift(n: nat, i: nat, d: nat)
    requires d > 0
    ensures (n % d + i) % d == (n + i) % d
  {
    DivModOf(n, d);
    DivModOf(n % d + i, d);
    var q := (n % d + i) / d;
    assert n + i == (n / d + q) * d + (n % d + i) % d;
    DivModUnique(n + i, n / d + q, (n % d + i) % d, d);
  }
}
