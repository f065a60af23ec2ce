/** Remainder facts. */
module Arithmetic {
  lemma {:induction false} ProductMonotone(a: int, b: int, n: int)
    requires a < b && n > 0
    ensures a * n + n <= b * n
    decreases b - a
  {
    assert b * n == (b - 1) * n + n;
    if b - 1 == a {
      assert (b - 1) * n == a * n;
    } else {
      ProductMonotone(a, b - 1, n);
    }
  }

  lemma RemainderUnique(h: int, n: int, q: int, r: int)
    requires n > 0 && h == q * n + r && 0 <= r < n
    ensures h % n == r && h / n == q
  {
    var p := h / n;
    assert h == p * n + h % n;
    if p > q {
      ProductMonotone(q, p, n);
    } else if p < q {
      ProductMonotone(p, q, n);
    }
  }

  lemma ModShift(x: int, k: int, m: int)
    requires m > 0
    ensures (x + k * m) % m == x % m
  {
    var q, r := x / m, x % m;
    assert x == q * m + r;
    RemainderUnique(x + k * m, m, q + k, r);
  }

  function Power2(e: nat): (p: nat)
    ensures p > 0
  {
    if e == 0 then 1 else 2 * Power2(e - 1)
  }

  lemma EvenFactor(c: int, x: int, h: int)
    requires c % 2 == 1 && c * x == 2 * h
    ensures x % 2 == 0
  {
    var d, y := c / 2, x / 2;
    assert c == 2 * d + 1 && x == 2 * y + x % 2;
    assert c * x == 2 * (d * x) + x;
  }

  /** An odd factor does not help divisibility by a power of two. */
  lemma {:induction false} OddCancels(c: int, x: int, q: int, e: nat) returns (y: int)
    requires c % 2 == 1 && c * x == q * Power2(e)
    ensures x == y * Power2(e)
    decreases e
  {
    if e == 0 {
      y := x;
    } else {
      var p := Power2(e - 1);
      assert q * Power2(e) == 2 * (q * p);
      EvenFactor(c, x, q * p);
      var half := x / 2;
      assert x == 2 * half && c * x == 2 * (c * half);
      y := OddCancels(c, half, q, e - 1);
      assert y * Power2(e) == 2 * (y * p);
    }
  }
}
