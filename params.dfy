/** The parameter model: the quantities the demo derives from the accuracy parameter ε.

    ε is set by a slider from 0.01 to 0.5 in steps of 0.01 (ControlPanel.tsx:63-65), so it is
    modelled exactly as a whole number k of hundredths, ε = k/100. Every formula then becomes
    exact integer arithmetic:
      ceil(1/ε)        = ceil(100/k)
      ceil(1/ε²)       = ceil(10000/k²)
      ceil(-log2 ε)    = the least m with k * 2^m >= 100
      max(0.7, 1 - ε)  = max(70, 100 - k) hundredths
    The source evaluates these in IEEE-754 doubles (`1 / (epsilon ** 2)`, `Math.log2`); at the
    few values of k where the exact quotient is a whole number, double rounding could in principle
    land on the other side of the ceiling. The model states the exact mathematical values. */
module Params {
  import opened Numbers

  /** ε in hundredths, over the slider's domain. */
  type Eps = k: int | 1 <= k <= 50 witness 10

  /** Ancilla count over the ancilla slider's domain, integers 3..8 (ControlPanel.tsx:111-113). */
  type Ancillas = m: int | 3 <= m <= 8 witness 3

  /** `Math.ceil(1 / epsilon)`: the circuit depth, the least d with d * ε >= 1. */
  function Depth(k: Eps): (d: nat)
    ensures d * k >= 100
    ensures (d - 1) * k < 100
  {
    CeilDiv(100, k)
  }

  /** `Math.ceil(1 / (epsilon ** 2))`: the classical sample count, the least n with n * ε² >= 1. */
  function Nsample(k: Eps): (n: nat)
    ensures n * (k * k) >= 10000
    ensures (n - 1) * (k * k) < 10000
  {
    CeilDiv(10000, k * k)
  }

  /** `Math.ceil(-Math.log2(epsilon))`: the least m with 2^m * ε >= 1. */
  function NegLog2Ceil(k: Eps): (m: nat)
    ensures k * Pow2(m) >= 100
    ensures m == 0 || k * Pow2(m - 1) < 100
  {
    var d := Depth(k);
    var m := CeilLog2(d);
    // 2^m >= d >= 100/k gives the first ensures
    MulMonotone(k, d, Pow2(m));
    // 2^(m-1) < d, i.e. 2^(m-1) <= d - 1 < 100/k, gives the second
    if m > 0 then
      MulMonotone(k, Pow2(m - 1), d - 1);
      m
    else
      m
  }

  /** For every ε on the slider, ceil(-log2 ε) <= 7, since 2^7 * 0.01 >= 1. */
  lemma NegLog2CeilAtMostSeven(k: Eps)
    ensures NegLog2Ceil(k) <= 7
  {
    var e := NegLog2Ceil(k);
    // were e above 7, 2^(e-1) * ε would already reach 1, against the minimality of e
    Pow2Monotone(7, Max(7, e - 1));
    MulMonotone(k, 1, Pow2(Max(7, e - 1)));
  }

  /** The ancilla count chosen when ε changes: `Math.max(3, Math.ceil(-Math.log2(newEpsilon)))`.
      It lies in 3..7, and 2^m * ε >= 1 holds for it. */
  function DerivedAncillas(k: Eps): (m: Ancillas)
    ensures m <= 7
    ensures m >= NegLog2Ceil(k)
    ensures m == 3 || m == NegLog2Ceil(k)
    ensures k * Pow2(m) >= 100
  {
    var e := NegLog2Ceil(k);
    NegLog2CeilAtMostSeven(k);
    Pow2Monotone(e, Max(3, e));
    Max(3, e)
  }

  /** `Math.max(0.7, 1 - epsilon)` in hundredths: between 70 and 99, and never below 1 - ε. */
  function Accuracy(k: Eps): (a: nat)
    ensures 70 <= a <= 99
    ensures a >= 100 - k
    ensures a == 70 || a == 100 - k
  {
    Max(70, 100 - k)
  }

  /** A product a * k of at least 10000 with k <= 100 has a >= 100. */
  lemma FactorAtLeastHundred(a: nat, k: nat)
    requires 1 <= k <= 100 && a * k >= 10000
    ensures a >= 100
  {
    MulMonotone(k, Min(a, 99), 99);
  }

  /** When d is the least multiplier taking k to 100, every multiplier n that does so is >= d. */
  lemma LeastMultiplier(n: nat, d: nat, k: nat)
    requires k >= 1 && d >= 1 && n * k >= 100 && (d - 1) * k < 100
    ensures n >= d
  {
    MulMonotone(k, Min(n, d - 1), d - 1);
  }

  /** Over the whole slider domain the classical sample count is at least the circuit depth:
      ceil(1/ε²) >= ceil(1/ε) because ε <= 1. */
  lemma SamplesAtLeastDepth(k: Eps)
    ensures Nsample(k) >= Depth(k)
  {
    var n, d := Nsample(k), Depth(k);
    assert n * (k * k) == (n * k) * k;
    FactorAtLeastHundred(n * k, k);
    LeastMultiplier(n, d, k);
  }

  /** Worked values at ε = 0.1: 100 samples, depth 10, 4 ancillas, accuracy 0.9. */
  lemma WorkedValuesAtOneTenth()
    ensures Nsample(10) == 100 && Depth(10) == 10 && NegLog2Ceil(10) == 4 && DerivedAncillas(10) == 4
    ensures Accuracy(10) == 90
  {
  }

  /** Worked values at ε = 0.25: 16 samples, depth 4, ceil(-log2 ε) = 2, which the lower bound of
      the ancilla count lifts to 3. */
  lemma WorkedValuesAtOneQuarter()
    ensures Nsample(25) == 16 && Depth(25) == 4 && NegLog2Ceil(25) == 2 && DerivedAncillas(25) == 3
  {
  }

  /** At the ends of the slider: ε = 0.01 needs depth 100 and 10000 samples, ε = 0.5 depth 2 and
      4 samples. */
  lemma WorkedValuesAtTheEnds()
    ensures Depth(1) == 100 && Nsample(1) == 10000
    ensures Depth(50) == 2 && Nsample(50) == 4
  {
  }

  /** At ε = 0.4 the accuracy floor of 0.7 applies. */
  lemma AccuracyFloorApplies()
    ensures Accuracy(40) == 70
  {
  }
}
