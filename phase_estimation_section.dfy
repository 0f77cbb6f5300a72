/** The phase-estimation panel: the circuit diagram with one animated gate per time step, the
    QFT progress bar that fills in steps of 15, and the measured phases it lists. */
module PhaseEstimationSection {
  import opened Numbers
  import opened Params
  import opened Progress

  /** The effect animates the circuit only when `isRunning && currentStep >= 2`; the QFT progress
      block is rendered under the same condition. */
  predicate AnimationActive(isRunning: bool, currentStep: int)
    ensures AnimationActive(isRunning, currentStep) ==> isRunning
    ensures currentStep < 2 ==> !AnimationActive(isRunning, currentStep)
  {
    isRunning && currentStep >= 2
  }

  /** The circuit step cycles through 0, 1, 2, 3: `(prev + 1) % 4`. The operands are never
      negative, so JavaScript's `%` and Dafny's agree. */
  function NextCircuitStep(s: nat): (r: nat)
    ensures r < 4
    ensures s < 3 ==> r == s + 1
    ensures s == 3 ==> r == 0
  {
    (s + 1) % 4
  }

  function CircuitStepAfter(s: nat, n: nat): nat
  {
    if n == 0 then s else NextCircuitStep(CircuitStepAfter(s, n - 1))
  }

  /** Taking the remainder before adding one does not change the next remainder. */
  lemma ModFourStep(x: nat)
    ensures ((x % 4) + 1) % 4 == (x + 1) % 4
  {
    var q := x / 4;
    assert x == 4 * q + x % 4;
    assert x + 1 == 4 * q + (x % 4 + 1);
  }

  /** After n ticks the circuit step has advanced by n modulo 4 (for n >= 1). */
  lemma {:induction false} CircuitStepAfterTicks(s: nat, n: nat)
    requires n >= 1
    ensures CircuitStepAfter(s, n) == (s + n) % 4
  {
    if n > 1 {
      CircuitStepAfterTicks(s, n - 1);
      ModFourStep(s + n - 1);
    }
  }

  /** Four ticks bring a step in 0..3 back to itself. */
  lemma CircuitStepPeriodFour(s: nat)
    requires s < 4
    ensures CircuitStepAfter(s, 4) == s
    ensures forall n :: 1 <= n < 4 ==> CircuitStepAfter(s, n) != s
  {
    forall n | 1 <= n < 4
      ensures CircuitStepAfter(s, n) != s
    {
      CircuitStepAfterTicks(s, n);
      assert s < s + n < s + 4;
    }
    CircuitStepAfterTicks(s, 4);
    assert (s + 4) % 4 == s;
  }

  /** The QFT bar stands at 90 after six ticks and is full from the seventh on. */
  lemma QftFullAfterSevenTicks(n: nat)
    ensures AfterTicks(15, n) == 100 <==> n >= 7
    ensures AfterTicks(15, 6) == 90
  {
    AfterTicksClosedForm(15, n);
    AfterTicksClosedForm(15, 6);
  }

  /** The four gates on each ancilla row, in circuit order. */
  datatype Gate = Hadamard | ControlledU | InverseQft | Measurement

  /** The gate animated at a circuit step in 0..3. */
  function GateAt(s: nat): Gate
    requires s < 4
  {
    match s
    case 0 => Hadamard
    case 1 => ControlledU
    case 2 => InverseQft
    case _ => Measurement
  }

  /** The gates of one ancilla row that carry an animation class: each gate glows when
      `isRunning && circuitStep === <its index>`. */
  function GlowingGates(isRunning: bool, circuitStep: nat): (g: set<Gate>)
    ensures |g| <= 1
    ensures !isRunning ==> g == {}
    ensures circuitStep >= 4 ==> g == {}
  {
    (if isRunning && circuitStep == 0 then {Hadamard} else {}) +
    (if isRunning && circuitStep == 1 then {ControlledU} else {}) +
    (if isRunning && circuitStep == 2 then {InverseQft} else {}) +
    (if isRunning && circuitStep == 3 then {Measurement} else {})
  }

  /** While running, exactly the gate of the current step glows; when idle, none does. */
  lemma ExactlyOneGateGlows(isRunning: bool, circuitStep: nat)
    requires circuitStep < 4
    ensures isRunning ==> GlowingGates(isRunning, circuitStep) == {GateAt(circuitStep)}
    ensures !isRunning ==> GlowingGates(isRunning, circuitStep) == {}
  {
  }

  /** Over a full cycle of four ticks every gate glows at least once; GlowsOnceWithinFour shows
      it glows no more than once. */
  lemma EveryGateGlowsOncePerCycle(s: nat, g: Gate)
    requires s < 4
    ensures exists n :: 1 <= n <= 4 && GateAt(CircuitStepAfter(s, n)) == g
  {
    var target := GateIndex(g);
    var n: nat := if target > s then target - s else target + 4 - s;
    assert 1 <= n <= 4 && (s + n) % 4 == target;
    CircuitStepAfterTicks(s, n);
    assert GateAt(CircuitStepAfter(s, n)) == g;
  }

  /** Within a cycle no gate glows twice: two tick counts in 1..4 that reach steps with the same
      gate are equal. */
  lemma GlowsOnceWithinFour(s: nat, n1: nat, n2: nat)
    requires s < 4 && 1 <= n1 <= 4 && 1 <= n2 <= 4
    requires GateAt(CircuitStepAfter(s, n1)) == GateAt(CircuitStepAfter(s, n2))
    ensures n1 == n2
  {
    CircuitStepAfterTicks(s, n1);
    CircuitStepAfterTicks(s, n2);
    GateAtInjective(CircuitStepAfter(s, n1), CircuitStepAfter(s, n2));
    ModFourBelowEight(s + n1);
    ModFourBelowEight(s + n2);
  }

  lemma ModFourBelowEight(x: nat)
    requires x < 8
    ensures x % 4 == if x < 4 then x else x - 4
  {
  }

  /** Distinct steps animate distinct gates. */
  lemma GateAtInjective(a: nat, b: nat)
    requires a < 4 && b < 4 && GateAt(a) == GateAt(b)
    ensures a == b
  {
  }

  /** The circuit step at which a gate is animated; the inverse of GateAt. */
  function GateIndex(g: Gate): (s: nat)
    ensures s < 4 && GateAt(s) == g
  {
    match g
    case Hadamard => 0
    case ControlledU => 1
    case InverseQft => 2
    case Measurement => 3
  }

  /** The diagram: one row per ancilla qubit (`Array.from({ length: ancillaQubits })`), each
      with the same glowing gates; the target row's Û glows together with the controlled-U. */
  function AncillaRows(m: Ancillas, isRunning: bool, circuitStep: nat): (rows: seq<set<Gate>>)
    ensures |rows| == m
    ensures forall i :: 0 <= i < m ==> rows[i] == GlowingGates(isRunning, circuitStep)
  {
    seq(m, _ => GlowingGates(isRunning, circuitStep))
  }

  /** The target qubit's Û glows exactly when the controlled-U gates of the ancilla rows do. */
  predicate TargetGlows(isRunning: bool, circuitStep: nat)
  {
    isRunning && circuitStep == 1
  }

  lemma TargetGlowsWithControlledU(isRunning: bool, circuitStep: nat)
    ensures TargetGlows(isRunning, circuitStep) <==> ControlledU in GlowingGates(isRunning, circuitStep)
  {
  }

  /** `results.slice(0, 16)`: the measurements listed, the first sixteen in order. */
  function ShownMeasurements(results: seq<string>): (shown: seq<string>)
    ensures |shown| == Min(16, |results|)
    ensures shown == results[..|shown|]
  {
    results[..Min(16, |results|)]
  }

  class PhasePanel {
    var qftProgress: int
    var circuitStep: nat

    ghost predicate Valid()
      reads this
    {
      0 <= qftProgress <= 100 && circuitStep < 4
    }

    constructor ()
      ensures Valid()
      ensures qftProgress == 0 && circuitStep == 0
    {
      qftProgress := 0;
      circuitStep := 0;
    }

    /** One interval tick: the QFT bar advances by 15 (clamped at 100) and the circuit moves to
        its next step. */
    method Tick()
      requires Valid()
      modifies this
      ensures Valid()
      ensures qftProgress == Advance(old(qftProgress), 15)
      ensures circuitStep == NextCircuitStep(old(circuitStep))
    {
      var newProgress := qftProgress + 15;
      if newProgress >= 100 {
        qftProgress := 100;
      } else {
        qftProgress := newProgress;
      }
      circuitStep := (circuitStep + 1) % 4;
    }
  }
}
