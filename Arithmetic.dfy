/** Facts about Euclidean division that the digit and hash proofs share. */
module Arithmetic {

  /** Euclidean division is unique: x == m*q + r with 0 <= r < m determines x % m. */
  lemma ModUnique(x: int, m: int, q: int, r: int)
    requires m > 0 && 0 <= r < m && x == m * q + r
    ensures x % m == r
  {
    var k := q - x / m;
    assert x == m * (x / m) + x % m;
    assert m * q - m * (x / m) == m * k;
    MulBetween(m, k);
  }

  lemma MulBetween(m: int, k: int)
    requires m > 0 && -m < m * k < m
    ensures k == 0
  {
    if k > 0 {
      MulGrows(m, k);
    } else if k < 0 {
      MulGrows(m, -k);
    }
  }

  lemma {:induction false} MulGrows(m: int, k: int)
    requires m > 0 && k >= 1
    ensures m * k >= m
  {
    if k > 1 {
      MulGrows(m, k - 1);
      assert m * k == m * (k - 1) + m;
    }
  }

  /** Adding a multiple of m does not change the remainder. */
  lemma ModShift(x: int, m: int, k: int)
    requires m > 0
    ensures (x + m * k) % m == x % m
  {
    assert x == m * (x / m) + x % m;
    assert x + m * k == m * (x / m + k) + x % m;
    ModUnique(x + m * k, m, x / m + k, x % m);
  }

  /** Numbers with the same remainder differ by a multiple of m. */
  lemma ModDifference(x: int, y: int, m: int)
    requires m > 0 && x % m == y % m
    ensures x == y + m * (x / m - y / m)
  {
    assert x == m * (x / m) + x % m;
    assert y == m * (y / m) + y % m;
    assert m * (x / m - y / m) == m * (x / m) - m * (y / m);
  }

  /** Congruence modulo m is preserved by a - b + c. */
  lemma ModCombine(a: int, a': int, b: int, b': int, c: int, m: int)
    requires m > 0 && a % m == a' % m && b % m == b' % m
    ensures (a - b + c) % m == (a' - b' + c) % m
  {
    ModDifference(a, a', m);
    ModDifference(b, b', m);
    var k := (a / m - a' / m) - (b / m - b' / m);
    assert a - b + c == (a' - b' + c) + m * k;
    ModShift(a' - b' + c, m, k);
  }

  /** Congruence modulo m is preserved by multiplying with a constant. */
  lemma ModScale(a: int, a': int, c: int, m: int)
    requires m > 0 && a % m == a' % m
    ensures (c * a) % m == (c * a') % m
  {
    ModDifference(a, a', m);
    var k := a / m - a' / m;
    assert c * a == c * (a' + m * k);
    assert c * a == c * a' + m * (c * k);
    ModShift(c * a', m, c * k);
  }
}
