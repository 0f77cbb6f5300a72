/** Small integer helpers shared by the parameter model, the binary encoder and the display code. */
module Numbers {

  /** A value that may be absent. */
  datatype Option<T> = None | Some(value: T)

  function Min(a: int, b: int): int { if a <= b then a else b }

  function Max(a: int, b: int): int { if a >= b then a else b }

  /** 2^n, as `Math.pow(2, n)` and `2**n` compute it for the small exponents used here. */
  function Pow2(n: nat): (r: nat)
    ensures r >= 1
  {
    if n == 0 then 1 else 2 * Pow2(n - 1)
  }

  lemma {:induction false} Pow2Monotone(a: nat, b: nat)
    requires a <= b
    ensures Pow2(a) <= Pow2(b)
  {
    if a < b {
      Pow2Monotone(a, b - 1);
    }
  }

  lemma MulMonotone(c: nat, a: nat, b: nat)
    requires a <= b
    ensures c * a <= c * b
  {
  }

  /** `Math.ceil(a / b)` for naturals: the least q with q * b >= a. */
  function CeilDiv(a: nat, b: nat): (q: nat)
    requires b > 0
    ensures q * b >= a
    ensures q == 0 || (q - 1) * b < a
  {
    var q := (a + b - 1) / b;
    assert a + b - 1 == q * b + (a + b - 1) % b;
    assert (q - 1) * b == q * b - b;
    q
  }

  /** The least m with 2^m >= d; used for `Math.ceil(Math.log2(...))`. */
  function CeilLog2(d: nat): (m: nat)
    ensures Pow2(m) >= d
    ensures m == 0 || Pow2(m - 1) < d
    decreases d
  {
    if d <= 1 then 0 else 1 + CeilLog2((d + 1) / 2)
  }

  /** Bounds on the quotient a / b of two naturals, for the ratios the displays compute. */
  lemma RatioBounds(a: nat, b: nat)
    requires b > 0
    ensures 0.0 <= (a as real) / (b as real)
    ensures a < b ==> (a as real) / (b as real) < 1.0
    ensures a <= b ==> (a as real) / (b as real) <= 1.0
    ensures a >= b ==> (a as real) / (b as real) >= 1.0
  {
    var q := (a as real) / (b as real);
    assert q * (b as real) == a as real;
  }
}
