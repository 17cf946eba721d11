/** Facts about integer division by a positive divisor. */
module Division {
  lemma MultipleApart(k: int, d: int)
    requires d > 0 && k != 0
    ensures k * d >= d || k * d <= -d
  {
  }

  lemma DivModUnique(x: int, d: int, q: int, r: int)
    requires d > 0 && x == q * d + r && 0 <= r < d
    ensures x / d == q && x % d == r
  {
    assert (x / d - q) * d == r - x % d;
    if x / d != q {
      MultipleApart(x / d - q, d);
    }
  }

  lemma DivShift(x: int, d: int)
    requires d > 0
    ensures (x + d) / d == x / d + 1
  {
    DivModUnique(x + d, d, x / d + 1, x % d);
  }
}
