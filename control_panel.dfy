/** The control panel: the slider domains, which controls are enabled while a run is in
    progress, and the derived values it displays. The classical-sample and depth displays are
    `Params.Nsample` and `Params.Depth`. */
module ControlPanel {
  import opened Numbers
  import opened Params

  /** The ε a slider position k denotes: k hundredths, from 0.01 to 0.5. */
  function EpsilonValue(k: Eps): (e: real)
    ensures 0.01 <= e <= 0.5
    ensures e * 100.0 == k as real
  {
    (k as real) / 100.0
  }

  /** `disabled={isRunning}` on the ε, ancilla and noise sliders: parameters change only while
      no run is in progress. */
  predicate SlidersEnabled(isRunning: bool)
    ensures SlidersEnabled(isRunning) <==> RunButtonLabel(isRunning) == RunAlgorithm
  {
    !isRunning
  }

  /** The reset button carries `disabled={isRunning}` too. */
  predicate ResetEnabled(isRunning: bool)
    ensures ResetEnabled(isRunning) <==> SlidersEnabled(isRunning)
  {
    !isRunning
  }

  datatype RunLabel = RunAlgorithm | PauseSimulation

  /** The run button has no `disabled` attribute; only its label and icon follow `isRunning`. */
  function RunButtonLabel(isRunning: bool): (l: RunLabel)
    ensures l == PauseSimulation <==> isRunning
    ensures l == RunAlgorithm <==> !isRunning
  {
    if isRunning then PauseSimulation else RunAlgorithm
  }

  /** While a run is in progress the only enabled control is the run button, showing "Pause". */
  lemma OnlyPauseWhileRunning(isRunning: bool)
    ensures isRunning ==> !SlidersEnabled(isRunning) && !ResetEnabled(isRunning) && RunButtonLabel(isRunning) == PauseSimulation
    ensures !isRunning ==> SlidersEnabled(isRunning) && ResetEnabled(isRunning) && RunButtonLabel(isRunning) == RunAlgorithm
  {
  }

  /** "Basis states: 2^m". */
  function BasisStates(m: Ancillas): (n: nat)
    ensures 8 <= n <= 256
  {
    Pow2Monotone(3, m);
    Pow2Monotone(m, 8);
    Pow2(m)
  }

  /** "Phase resolution: 2^-m": the reciprocal of the number of basis states. */
  function PhaseResolution(m: Ancillas): (r: real)
    ensures r * (BasisStates(m) as real) == 1.0
    ensures 1.0 / 256.0 <= r <= 1.0 / 8.0
  {
    var n := BasisStates(m) as real;
    ReciprocalBounds(n);
    1.0 / n
  }

  /** 1/n lies between 1/256 and 1/8 for n between 8 and 256. */
  lemma ReciprocalBounds(n: real)
    requires 8.0 <= n <= 256.0
    ensures 1.0 / 256.0 <= 1.0 / n <= 1.0 / 8.0
  {
    var r := 1.0 / n;
    assert r * n == 1.0;
    assert r * 8.0 <= r * n <= r * 256.0;
  }

  /** Each extra ancilla qubit doubles the basis states and halves the phase resolution. */
  lemma ExtraAncillaHalvesResolution(m: Ancillas)
    requires m < 8
    ensures BasisStates(m + 1) == 2 * BasisStates(m)
    ensures PhaseResolution(m + 1) * 2.0 == PhaseResolution(m)
  {
    assert Pow2(m + 1) == 2 * Pow2(m);
    var n := BasisStates(m) as real;
    assert BasisStates(m + 1) as real == 2.0 * n;
    assert PhaseResolution(m + 1) == 1.0 / (2.0 * n);
  }
}
