/** Small definitions shared by the models of the individual components. */
module Common {

  datatype Option<+T> = None | Some(value: T)

  /** The value of the C expression `1 << n`. */
  function Pow2(n: nat): (r: nat)
    ensures r >= 1
  {
    if n == 0 then 1 else 2 * Pow2(n - 1)
  }

  function Min(a: int, b: int): int { if a <= b then a else b }

  type Pos = n: nat | n >= 1 witness 1

  lemma MulMonotone(a: int, b: int, w: nat)
    requires a <= b
    ensures a * w <= b * w
  {
    assert (b - a) * w >= 0;
    assert b * w == a * w + (b - a) * w;
  }

  /** Euclidean division is determined by the equation it solves. */
  lemma DivModUnique(x: int, d: Pos, q: int, r: int)
    requires 0 <= r < d && x == q * d + r
    ensures x / d == q && x % d == r
  {
    var q', r' := x / d, x % d;
    assert (q - q') * d == r' - r;
    if q != q' {
      MulMonotone(1, if q > q' then q - q' else q' - q, d);
    }
  }

  lemma {:induction false} Pow2Add(m: nat, n: nat)
    ensures Pow2(m + n) == Pow2(m) * Pow2(n)
  {
    if n > 0 {
      Pow2Add(m, n - 1);
    }
  }

  /** What is aligned to a power of two is aligned to every smaller one. */
  lemma {:induction false} Pow2Divides(x: nat, a: nat, b: nat)
    requires b <= a && x % Pow2(a) == 0
    ensures x % Pow2(b) == 0
    decreases a - b
  {
    if b < a {
      var q := x / Pow2(a);
      assert x == (2 * q) * Pow2(a - 1);
      DivModUnique(x, Pow2(a - 1), 2 * q, 0);
      Pow2Divides(x, a - 1, b);
    }
  }
}
