/** Go's fixed-width unsigned integers, as ranges of the mathematical
    integers, and the facts about Euclidean division the models share. */
module Integers {
  type byte = b: int | 0 <= b < 0x100
  type uint32 = w: int | 0 <= w < 0x1_0000_0000

  lemma MulAtLeast(a: int, d: int)
    requires a >= 1 && d > 0
    ensures a * d >= d
  {
  }

  /** Quotient and remainder are unique. */
  lemma Split(w: int, q: int, r: int, d: int)
    requires d > 0 && 0 <= r < d && w == q * d + r
    ensures w / d == q && w % d == r
  {
    var q', r' := w / d, w % d;
    assert q' * d + r' == w;
    if q > q' {
      MulAtLeast(q - q', d);
    } else if q < q' {
      MulAtLeast(q' - q, d);
    }
  }

  /** Reducing an intermediate value modulo `m` does not change the final
      residue. */
  lemma ModSum(a: int, b: int, m: int)
    requires m > 0
    ensures (a % m + b) % m == (a + b) % m
  {
    var qa, ra := a / m, a % m;
    var q, r := (ra + b) / m, (ra + b) % m;
    assert a + b == (q + qa) * m + r;
    Split(a + b, q + qa, r, m);
  }
}
