/** Small facts about multiplication, division and remainder on naturals,
    used by the index arithmetic of the launch grid and of the wave loop. */
module Arith {

  /** Multiplying by a natural factor preserves `<=`. */
  lemma MulMonoLe(a: int, b: int, d: nat)
    requires a <= b
    ensures a * d <= b * d
  {
    var diff := b - a;
    assert b * d == a * d + diff * d;
  }

  /** Multiplying by a positive factor preserves and reflects `<`. */
  lemma MulMonoLt(a: int, b: int, d: nat)
    requires d > 0
    ensures a < b <==> a * d < b * d
  {
    if a < b {
      MulMonoLe(a + 1, b, d);
    } else {
      MulMonoLe(b, a, d);
    }
  }

  /** Quotient and remainder are unique: any decomposition `x == q * d + r`
      with `0 <= r < d` is the one `/` and `%` give. */
  lemma DivModUnique(x: int, d: int, q: int, r: int)
    requires d > 0 && 0 <= r < d
    requires x == q * d + r
    ensures q == x / d && r == x % d
  {
    var q', r' := x / d, x % d;
    assert x == q' * d + r';
    if q < q' {
      MulMonoLe(q + 1, q', d);
      assert false;
    } else if q' < q {
      MulMonoLe(q' + 1, q, d);
      assert false;
    }
  }

  /** A value below `w * d` has a quotient by `d` below `w`. */
  lemma DivLt(x: int, d: int, w: int)
    requires d > 0 && 0 <= x < w * d
    ensures 0 <= x / d < w
  {
    if x / d >= w {
      MulMonoLe(w, x / d, d);
      assert false;
    }
  }

  /** Between two multiples of `d`, the smaller is at least `d` below the larger. */
  lemma MultipleStep(i: int, n: int, d: int)
    requires d > 0 && i % d == 0 && n % d == 0 && i < n
    ensures i + d <= n
  {
    var qi, qn := i / d, n / d;
    assert i == qi * d && n == qn * d;
    MulMonoLt(qi, qn, d);
    MulMonoLe(qi + 1, qn, d);
  }
}
