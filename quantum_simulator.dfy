/** The simulator state machine: the `SimulationState` record, its five handlers, and the mock
    results the deferred completion writes.

    The completion is scheduled with `setTimeout` when a run starts; its closure captures the
    ε and ancilla count of that moment. The model hands that closure back as a `Ticket`, and a
    completion is a separate method called with the ticket and the ten random draws. Timing is
    not modelled: a completion may be delivered after any sequence of other handlers. */
module QuantumSimulator {
  import opened Numbers
  import opened Params
  import opened Binary
  import ResultsDisplay
  import SamplingSection
  import PhaseEstimationSection

  /** The results record: sample bits, phase strings, accuracy (in hundredths) and circuit depth. */
  datatype Results = Results(samplingResults: seq<string>, phaseResults: seq<string>, accuracy: nat, circuitDepth: nat)

  /** The results of the initial state and of a reset. */
  const EmptyResults := Results([], [], 0, 0)

  /** A scheduled completion: the run it belongs to and the ε and ancilla count its closure
      captured. */
  datatype Ticket = Ticket(id: nat, epsilon: Eps, ancillas: Ancillas)

  /** `Array.from({ length: 2**m }, (_, i) => i.toString(2).padStart(m, '0')).slice(0, 8)`. */
  function PhaseResults(m: Ancillas): (ps: seq<string>)
    ensures |ps| == 8
    ensures forall i :: 0 <= i < 8 ==> ps[i] == Encode(i, m)
  {
    Pow2Monotone(3, m);
    var all := seq(Pow2(m), i requires 0 <= i < Pow2(m) => Encode(i, m));
    all[..Min(8, |all|)]
  }

  /** The mock phase results are eight distinct binary strings of width m, the i-th of which
      parses back to i. */
  lemma PhaseResultsRoundTrip(m: Ancillas)
    ensures ResultsDisplay.AllBinary(PhaseResults(m))
    ensures forall i :: 0 <= i < 8 ==> |PhaseResults(m)[i]| == m && Value(PhaseResults(m)[i]) == i
    ensures ResultsDisplay.Distinct(PhaseResults(m))
  {
    var ps := PhaseResults(m);
    Pow2Monotone(3, m);
    forall i | 0 <= i < 8
      ensures IsBinary(ps[i]) && |ps[i]| == m && Value(ps[i]) == i
    {
      EncodeRoundTrip(i, m);
    }
    forall i, j | 0 <= i < j < 8
      ensures ps[i] != ps[j]
    {
      EncodeInjective(i, j, m);
    }
  }

  /** The record the completion builds from the captured ε and m and the ten draws. */
  function MockResults(t: Ticket, draws: seq<bool>): (r: Results)
    requires |draws| == 10
    ensures r.samplingResults == CoinFlips(draws) && |r.samplingResults| == 10
    ensures ResultsDisplay.AllBits(r.samplingResults)
    ensures r.phaseResults == PhaseResults(t.ancillas)
    ensures r.accuracy == Accuracy(t.epsilon) && 70 <= r.accuracy <= 99 && r.accuracy >= 100 - t.epsilon
    ensures r.circuitDepth * t.epsilon >= 100 && (r.circuitDepth - 1) * t.epsilon < 100
  {
    Results(CoinFlips(draws), PhaseResults(t.ancillas), Accuracy(t.epsilon), Depth(t.epsilon))
  }

  /** The method-comparison panel appears after every completion and disappears on reset. */
  lemma ComparisonPanelFollowsResults(t: Ticket, draws: seq<bool>)
    requires |draws| == 10
    ensures ResultsDisplay.ComparisonShown(MockResults(t, draws).samplingResults)
    ensures !ResultsDisplay.ComparisonShown(EmptyResults.samplingResults)
  {
  }

  /** `currentStep` is 0 or 5, and 0 while a run is in progress. */
  predicate StepInvariant(isRunning: bool, currentStep: int)
  {
    (currentStep == 0 || currentStep == 5) && (isRunning ==> currentStep == 0)
  }

  /** Under the step invariant neither panel's animation gate ever opens: the sampling tick needs
      step 1 and the phase-estimation tick step 2 or more. */
  lemma AnimationsNeverStart(isRunning: bool, currentStep: int)
    requires StepInvariant(isRunning, currentStep)
    ensures !SamplingSection.SamplingActive(isRunning, currentStep)
    ensures !PhaseEstimationSection.AnimationActive(isRunning, currentStep)
  {
  }

  class Simulation {
    var epsilon: Eps
    var ancillaQubits: Ancillas
    var isRunning: bool
    var currentStep: int
    var results: Results
    /** The completion expected for the run in progress, if any. */
    var current: Option<Ticket>
    /** How many runs have been started; numbers the tickets. */
    var issued: nat

    ghost predicate Valid()
      reads this
    {
      StepInvariant(isRunning, currentStep) &&
      (isRunning <==> current.Some?) &&
      (current.Some? ==> current.value == Ticket(issued, epsilon, ancillaQubits))
    }

    /** Results on screen carry the circuit depth of the ε on screen. */
    ghost predicate Consistent()
      reads this
    {
      |results.samplingResults| > 0 || |results.phaseResults| > 0 ==> results.circuitDepth == Depth(epsilon)
    }

    /** ε = 0.1, four ancillas, idle at step 0, no results. */
    constructor ()
      ensures Valid() && Consistent()
      ensures epsilon == 10 && ancillaQubits == 4
      ensures !isRunning && currentStep == 0 && results == EmptyResults
      ensures current == None && issued == 0
    {
      epsilon := 10;
      ancillaQubits := 4;
      isRunning := false;
      currentStep := 0;
      results := EmptyResults;
      current := None;
      issued := 0;
    }

    /** `handleEpsilonChange`: the ancilla count is re-derived and the stored circuit depth
        recomputed; nothing else in the results changes. The ε slider is disabled while running. */
    method ChangeEpsilon(newEpsilon: Eps)
      requires Valid() && !isRunning
      modifies this
      ensures Valid() && Consistent()
      ensures epsilon == newEpsilon && ancillaQubits == DerivedAncillas(newEpsilon)
      ensures results == old(results).(circuitDepth := Depth(newEpsilon))
      ensures isRunning == old(isRunning) && currentStep == old(currentStep)
      ensures current == old(current) && issued == old(issued)
    {
      epsilon := newEpsilon;
      ancillaQubits := DerivedAncillas(newEpsilon);
      results := results.(circuitDepth := Depth(newEpsilon));
    }

    /** The ancilla slider's `onAncillaChange`: overrides only the ancilla count. The slider is
        disabled while running. */
    method ChangeAncillas(value: Ancillas)
      requires Valid() && !isRunning
      modifies this
      ensures Valid()
      ensures old(Consistent()) ==> Consistent()
      ensures ancillaQubits == value
      ensures epsilon == old(epsilon) && isRunning == old(isRunning) && currentStep == old(currentStep)
      ensures results == old(results) && current == old(current) && issued == old(issued)
    {
      ancillaQubits := value;
    }

    /** `handleRunAlgorithm`. While running it only pauses. Otherwise it starts a run at step 0
        and schedules a completion, returned as the ticket. */
    method Run() returns (scheduled: Option<Ticket>)
      requires Valid()
      modifies this
      ensures Valid()
      ensures old(Consistent()) ==> Consistent()
      ensures epsilon == old(epsilon) && ancillaQubits == old(ancillaQubits) && results == old(results)
      ensures old(isRunning) ==> !isRunning && currentStep == old(currentStep) && scheduled == None && issued == old(issued)
      ensures !old(isRunning) ==>
        isRunning && currentStep == 0 && issued == old(issued) + 1 && scheduled == Some(Ticket(issued, epsilon, ancillaQubits))
      ensures current == scheduled
    {
      if isRunning {
        isRunning := false;
        current := None;
        scheduled := None;
      } else {
        isRunning := true;
        currentStep := 0;
        issued := issued + 1;
        scheduled := Some(Ticket(issued, epsilon, ancillaQubits));
        current := scheduled;
      }
    }

    /** The `setTimeout` callback as written: it writes the mock results built from the
        ticket's captured ε and m, whatever happened since the run started, and ends the run. */
    method Complete(t: Ticket, draws: seq<bool>)
      requires Valid() && |draws| == 10
      modifies this
      ensures Valid()
      ensures results == MockResults(t, draws)
      ensures !isRunning && currentStep == 5 && current == None
      ensures epsilon == old(epsilon) && ancillaQubits == old(ancillaQubits) && issued == old(issued)
    {
      results := MockResults(t, draws);
      isRunning := false;
      currentStep := 5;
      current := None;
    }

    /** The completion as evidently intended: it takes effect only for the run still in
        progress; a completion for a paused, reset or superseded run changes nothing. */
    method CompleteIfCurrent(t: Ticket, draws: seq<bool>)
      requires Valid() && |draws| == 10
      modifies this
      ensures Valid()
      ensures old(Consistent()) ==> Consistent()
      ensures old(current) == Some(t) ==> results == MockResults(t, draws) && !isRunning && currentStep == 5 && current == None
      ensures old(current) != Some(t) ==>
        results == old(results) && isRunning == old(isRunning) && currentStep == old(currentStep) && current == old(current)
      ensures epsilon == old(epsilon) && ancillaQubits == old(ancillaQubits) && issued == old(issued)
    {
      if current == Some(t) {
        results := MockResults(t, draws);
        isRunning := false;
        currentStep := 5;
        current := None;
      }
    }

    /** `handleReset`: idle at step 0 with empty results; ε and the ancilla count are kept. */
    method Reset()
      requires Valid()
      modifies this
      ensures Valid() && Consistent()
      ensures !isRunning && currentStep == 0 && results == EmptyResults && current == None
      ensures epsilon == old(epsilon) && ancillaQubits == old(ancillaQubits) && issued == old(issued)
    {
      isRunning := false;
      currentStep := 0;
      results := EmptyResults;
      current := None;
    }
  }

  /** Run at ε = 0.01, pause, move ε to 0.5, and let the first run's completion fire: the results
      panel then divides the 4 classical samples of ε = 0.5 by the depth 100 of ε = 0.01, showing
      a speed-up below one. */
  method StaleCompletionScenario(draws: seq<bool>) returns (shown: Results, epsilon: Eps)
    requires |draws| == 10
    ensures epsilon == 50 && |shown.samplingResults| == 10
    ensures shown.circuitDepth == 100 && Nsample(epsilon) == 4 && shown.circuitDepth != Depth(epsilon)
    ensures (Nsample(epsilon) as real) / (shown.circuitDepth as real) < 1.0
    ensures 1.0 - (shown.circuitDepth as real) / (Nsample(epsilon) as real) < 0.0
  {
    var sim := new Simulation();
    sim.ChangeEpsilon(1);
    var scheduled := sim.Run();
    var _ := sim.Run();
    sim.ChangeEpsilon(50);
    sim.Complete(scheduled.value, draws);
    shown, epsilon := sim.results, sim.epsilon;
    WorkedValuesAtTheEnds();
    assert shown.circuitDepth == Depth(1) == 100;
    ResultsDisplay.SpeedupBelowOne(Nsample(epsilon), shown.circuitDepth);
  }

  /** The same steps with the intended completion: the stale completion is ignored, no results
      are shown, and the following run completes with the depth of the current ε. */
  method CancelledCompletionScenario(draws: seq<bool>) returns (stale: Results, next: Results)
    requires |draws| == 10
    ensures stale.samplingResults == [] && stale.phaseResults == []
    ensures next == MockResults(Ticket(2, 50, DerivedAncillas(50)), draws)
    ensures next.circuitDepth == Depth(50) && Nsample(50) >= next.circuitDepth
  {
    var sim := new Simulation();
    sim.ChangeEpsilon(1);
    var first := sim.Run();
    var _ := sim.Run();
    sim.ChangeEpsilon(50);
    sim.CompleteIfCurrent(first.value, draws);
    stale := sim.results;
    var second := sim.Run();
    sim.CompleteIfCurrent(second.value, draws);
    next := sim.results;
    SamplesAtLeastDepth(50);
  }
}
