/** Multiples of a positive number: the arithmetic behind aligned address blocks. */
module Multiples {

  lemma ProductNonNegative(a: int, b: int)
    requires 0 <= a && 0 <= b
    ensures 0 <= a * b
  {
  }

  lemma ProductIsMultiple(k: int, m: int)
    requires m > 0
    ensures (k * m) % m == 0
  {
    var q, r := k * m / m, k * m % m;
    var d := k - q;
    assert d * m == k * m - q * m;
    if d >= 1 {
      assert (d - 1) * m == d * m - m;
      ProductNonNegative(d - 1, m);
    } else if d <= -1 {
      assert (-d - 1) * m == -(d * m) - m;
      ProductNonNegative(-d - 1, m);
    }
  }

  /** Different multiples are at least one step apart. */
  lemma Apart(x: int, y: int, m: int)
    requires m > 0 && x % m == 0 && y % m == 0 && x < y
    ensures x + m <= y
  {
    var u, v := x / m, y / m;
    var d := v - u;
    assert d * m == y - x;
    if d <= 0 {
      ProductNonNegative(-d, m);
    } else {
      assert (d - 1) * m == y - x - m;
      ProductNonNegative(d - 1, m);
    }
  }

  lemma Next(x: int, q: int, m: int)
    requires m > 0 && x % m == 0
    ensures (x + q * m) % m == 0
  {
    ProductIsMultiple(x / m + q, m);
    assert (x / m + q) * m == x / m * m + q * m;
  }

  /** A multiple of `q * m` is a multiple of `m`. */
  lemma Finer(x: int, q: int, m: int)
    requires m > 0 && q > 0 && q * m > 0 && x % (q * m) == 0
    ensures x % m == 0
  {
    var u := x / (q * m);
    assert x == u * (q * m) == (u * q) * m;
    ProductIsMultiple(u * q, m);
  }

  /** Aligned ranges of `m` and `q * m` numbers that meet are nested. */
  lemma NestedRanges(s: int, l: int, q: int, m: int)
    requires m > 0 && q > 0 && q * m > 0
    requires s % m == 0 && l % (q * m) == 0
    requires s < l + q * m && l < s + m
    ensures l <= s && s + m <= l + q * m
  {
    Finer(l, q, m);
    Next(l, q, m);
    Apart(s, l + q * m, m);
    if s < l { Apart(s, l, m); }
  }
}
