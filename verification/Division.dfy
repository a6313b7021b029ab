/** The few facts about floor division that the rate limiters rest on. */
module Division {

  lemma DivNonNegative(x: int, d: int)
    requires x >= 0 && d > 0
    ensures x / d >= 0
  {
  }

  lemma DivUnique(x: int, d: int, q: int)
    requires d > 0 && q * d <= x < q * d + d
    ensures x / d == q
  {
    var p, r := x / d, x % d;
    assert x == p * d + r;
    assert (q - p) * d == q * d - p * d;
    MultipleOf(q - p, d);
  }

  lemma MultipleOf(k: int, d: int)
    requires d > 0
    ensures k >= 1 ==> k * d >= d
    ensures k <= -1 ==> k * d <= -d
  {
    if k >= 1 {
      assert (k - 1) * d >= 0;
    } else if k <= -1 {
      assert (-1 - k) * d >= 0;
    }
  }

  lemma DivMinus(x: int, k: int, d: int)
    requires d > 0
    ensures (x - k * d) / d == x / d - k
  {
    var q, r := x / d, x % d;
    assert x == q * d + r;
    assert (q - k) * d == q * d - k * d;
    DivUnique(x - k * d, d, q - k);
  }

  lemma DivMonotone(x: int, y: int, d: int)
    requires d > 0 && x <= y
    ensures x / d <= y / d
  {
    var p := x / d;
    assert p * d <= x;
    DivNonNegative(y - p * d, d);
    DivMinus(y, p, d);
  }

  /** Two grid numbers differ by the whole intervals between the times, or by one more. */
  lemma DivDifference(x: int, y: int, d: int)
    requires d > 0 && x <= y
    ensures (y - x) / d <= y / d - x / d <= (y - x) / d + 1
  {
    var p, q, n := x / d, y / d, (y - x) / d;
    assert x == p * d + x % d && y == q * d + y % d && y - x == n * d + (y - x) % d;
    assert (q - p - n) * d == q * d - p * d - n * d;
    assert -d < (q - p - n) * d < 2 * d;
    assert (q - p - n - 1) * d == (q - p - n) * d - d;
    MultipleOf(q - p - n, d);
    MultipleOf(q - p - n - 1, d);
  }
}
