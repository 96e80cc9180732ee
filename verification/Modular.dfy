/** The few facts about remainders that ring buffers and staging banks rest on. */
module Modular {

  lemma MulAtLeast(d: int, m: nat)
    requires 1 <= d
    ensures m <= d * m
  {
    assert (d - 1) * m >= 0;
    assert d * m == (d - 1) * m + m;
  }

  /** Quotient and remainder are unique. */
  lemma DivModUnique(x: int, m: nat, q: int, r: nat)
    requires 0 < m && r < m && x == q * m + r
    ensures x % m == r && x / m == q
  {
    var d := x / m - q;
    assert d * m == (x / m) * m - q * m;
    assert d * m == r - x % m;
    assert (-d) * m == -(d * m);
    if 1 <= d {
      MulAtLeast(d, m);
    } else if d <= -1 {
      MulAtLeast(-d, m);
    }
  }

  lemma DivModOf(x: int, m: nat)
    requires 0 < m
    ensures x == (x / m) * m + x % m && 0 <= x % m < m
  {
  }

  lemma ModAdd(x: int, m: nat)
    requires 0 < m
    ensures (x + m) % m == x % m && (x + m) / m == x / m + 1
  {
    DivModOf(x, m);
    assert (x / m + 1) * m == (x / m) * m + m;
    DivModUnique(x + m, m, x / m + 1, x % m);
  }

  lemma ModSmall(x: nat, m: nat)
    requires x < m
    ensures x % m == x && x / m == 0
  {
    DivModUnique(x, m, 0, x);
  }

  /** Two numbers less than `m` apart have different remainders. */
  lemma ModDistinct(a: int, b: int, m: nat)
    requires a < b < a + m
    ensures a % m != b % m
  {
    DivModOf(a, m);
    var r := a % m + (b - a);
    assert b == (a / m) * m + r;
    if r < m {
      DivModUnique(b, m, a / m, r);
    } else {
      assert (a / m + 1) * m == (a / m) * m + m;
      DivModUnique(b, m, a / m + 1, r - m);
    }
  }

  /** The remainder of a shifted number is the shifted remainder, reduced. */
  lemma ModShift(a: int, d: int, m: nat)
    requires 0 < m
    ensures (a + d) % m == (a % m + d) % m
  {
    DivModOf(a, m);
    DivModOf(a % m + d, m);
    var q := (a % m + d) / m;
    assert (a / m + q) * m == (a / m) * m + q * m;
    DivModUnique(a + d, m, a / m + q, (a % m + d) % m);
  }

  lemma DivMonotone(a: int, b: int, m: nat)
    requires 0 < m && a <= b
    ensures a / m <= b / m
  {
    DivModOf(a, m);
    DivModOf(b, m);
    var d := a / m - b / m;
    assert d * m == (a / m) * m - (b / m) * m;
    if 1 <= d {
      MulAtLeast(d, m);
    }
  }

  lemma DivNonNegative(a: nat, m: nat)
    requires 0 < m
    ensures 0 <= a / m
  {
    ModSmall(0, m);
    DivMonotone(0, a, m);
  }

  lemma MulSign(k: int, m: nat)
    ensures 0 <= k ==> 0 <= k * m
  {
  }

  /** The quotient of a number below `n * m` is below `n`. */
  lemma DivBelow(d: nat, n: nat, m: nat)
    requires 0 < m && d < n * m
    ensures 0 <= d / m < n
  {
    DivNonNegative(d, m);
    DivModOf(d, m);
    var k := d / m - n;
    assert (d / m) * m == n * m + k * m;
    MulSign(k, m);
  }
}
