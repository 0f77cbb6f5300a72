# Quantum phase estimation explorer — a Dafny model

This project models the logic of a React demo that compares direct sampling with quantum phase
estimation. Two parts are modelled:

- **The simulator.** The user sets an accuracy parameter ε and an ancilla count, then runs a
  mock algorithm. After a delay, a deferred completion writes mock results: ten random sample
  bits, the first eight m-bit phase strings, an accuracy and a circuit depth. Two animated
  panels and a results panel display them.
- **A factoring demo.** It validates a number and finds its smallest factor by trial division.

How the source maps onto Dafny:

- **ε.** The ε slider moves from 0.01 to 0.5 in steps of 0.01. ε is therefore the whole number
  `k` of hundredths (`Params.Eps`, 1..50). Each derived quantity is exact integer arithmetic:
  - circuit depth `ceil(1/ε)`;
  - classical samples `ceil(1/ε²)`;
  - `ceil(-log2 ε)`;
  - accuracy `max(0.7, 1 - ε)`, held in hundredths.
- **Ancilla count.** It is `Params.Ancillas`, 3..8.
- **The simulator state.** It is the class `QuantumSimulator.Simulation`, with one method per
  handler. The deferred completion is a method of its own. It receives the ε and ancilla count
  captured when the run started, as a `Ticket`. The ten `Math.random()` draws are passed in as
  booleans.
- **Panel ticks.** The interval ticks of the sampling and phase-estimation panels are methods on
  small classes. `SamplingSection.SamplingPanel` and `PhaseEstimationSection.PhasePanel` hold the
  counters the source keeps in component state.
- **Results statistics.** The histogram fold, counts, ratio and sort are pure functions with
  lemmas (`ResultsDisplay`).
- **Binary encoding.** `toString(2)`, `padStart` and `parseInt(s, 2)` are modelled in `Binary`.

Proved across the project:

- The `Simulation` methods keep an invariant: `currentStep` is 0 or 5, and 0 while running.
  From it, the gates that start the two panel animations (`currentStep === 1`,
  `currentStep >= 2`) never open (`QuantumSimulator.AnimationsNeverStart`).
- The mock phase strings round-trip through `parseInt`.
- The histogram counts are the multiplicities of the results. The displayed entries are sorted
  and are the smallest ones.
- The trial-division factor is the least divisor, and it equals N exactly when N is prime.

The factoring demo's guard rejects an input that is at most 1 or not an integer
(`!Number.isInteger(numberToFactor)`, Cryptography.tsx:16). The field is read with
`parseInt(e.target.value, 10)` (Cryptography.tsx:62), so the stored value is always NaN or a
whole number. The integer half of the guard therefore rejects only NaN: "2.5" is stored as 2
and factored as [2]. The model stores the parsed value (`Cryptography.Input`); it does not parse
strings (`Cryptography.FactorTwoPointFive`).

## Model

| member | source | states |
|---|---|---|
| Params.Depth | src/components/quantum/PhaseEstimationSection.tsx:45 | `ceil(1/ε)` is the least d with d·ε ≥ 1; the simulator computes the same value at QuantumSimulator.tsx:51 and :76 |
| Params.Nsample | src/components/QuantumSimulator.tsx:107 | `ceil(1/ε²)` is the least n with n·ε² ≥ 1 |
| Params.NegLog2Ceil | src/components/QuantumSimulator.tsx:108 | `ceil(-log2 ε)` is the least m with 2^m·ε ≥ 1 |
| Params.NegLog2CeilAtMostSeven | src/components/QuantumSimulator.tsx:47 | over the ε slider's domain, `ceil(-log2 ε)` ≤ 7 |
| Params.DerivedAncillas | src/components/QuantumSimulator.tsx:47 | `max(3, ceil(-log2 ε))` is 3 or `ceil(-log2 ε)`, lies in 3..7, is at least `ceil(-log2 ε)`, and satisfies 2^m·ε ≥ 1 |
| Params.Accuracy | src/components/QuantumSimulator.tsx:75 | `max(0.7, 1 - ε)` lies in [0.70, 0.99], is never below 1 - ε, and is one of the two |
| Params.SamplesAtLeastDepth | src/components/quantum/ControlPanel.tsx:82-86 | the classical samples shown are never fewer than the quantum depth shown, for every ε on the slider |
| Params.WorkedValuesAtOneTenth | src/components/QuantumSimulator.tsx:29-30 | at the initial ε = 0.1: 100 samples, depth 10, 4 ancillas (the initial ancilla count), accuracy 0.9 |
| Params.WorkedValuesAtOneQuarter | src/components/QuantumSimulator.tsx:47 | at ε = 0.25, `ceil(-log2 ε)` = 2 and the floor of 3 ancillas applies |
| Params.WorkedValuesAtTheEnds | src/components/quantum/ControlPanel.tsx:63-65 | at the slider ends: ε = 0.01 gives depth 100 and 10000 samples; ε = 0.5 gives depth 2 and 4 samples |
| Params.AccuracyFloorApplies | src/components/QuantumSimulator.tsx:75 | at ε = 0.4 the accuracy is the 0.7 floor |
| Binary.ToBinary | src/components/QuantumSimulator.tsx:73 | `i.toString(2)` gives a non-empty binary string with no leading zero |
| Binary.PadStart | src/components/QuantumSimulator.tsx:73 | `padStart(w, '0')` gives length max(\|s\|, w), keeps s as the suffix, and fills the front |
| Binary.ValueOfToBinary | src/components/quantum/ResultsDisplay.tsx:88 | `parseInt(n.toString(2), 2) == n` |
| Binary.Value | src/components/quantum/ResultsDisplay.tsx:88-92 | `parseInt(s, 2)` of a binary string of length w is below 2^w, and at least 2^(w-1) when the string starts with 1 |
| Binary.Encode | src/components/QuantumSimulator.tsx:73 | `i.toString(2).padStart(w, '0')` is a binary string of length max(w, number of binary digits of i) |
| Binary.ValueOfPadStart | src/components/QuantumSimulator.tsx:73 | zero padding keeps a binary string binary and keeps its parsed value |
| Binary.ToBinaryFits | src/components/QuantumSimulator.tsx:73 | the binary digits of n fit in w ≥ 1 places exactly when n < 2^w |
| Binary.ValueIgnoresLeadingZeros | src/components/quantum/ResultsDisplay.tsx:88 | zero padding does not change the parsed value |
| Binary.EncodeRoundTrip | src/components/QuantumSimulator.tsx:72-73 | for i < 2^w, the padded encoding is a binary string of exactly w characters that parses back to i |
| Binary.EncodeInjective | src/components/QuantumSimulator.tsx:72-73 | distinct indices below 2^w have distinct encodings |
| Binary.CoinFlips | src/components/QuantumSimulator.tsx:69-71 | one "1" or "0" per draw, "1" exactly when the draw is above one half |
| ResultsDisplay.Tally | src/components/quantum/ResultsDisplay.tsx:24-27 | the `reduce` count map has exactly the results as keys, each mapped to its number of occurrences |
| ResultsDisplay.FirstOccurrences | src/components/quantum/ResultsDisplay.tsx:87 | the map's keys in insertion order are distinct and are exactly the results |
| ResultsDisplay.Entries | src/components/quantum/ResultsDisplay.tsx:87 | `Object.entries` lists the keys in first-occurrence order, each with its multiplicity |
| ResultsDisplay.EntriesDescribeResults | src/components/quantum/ResultsDisplay.tsx:24-27 | the histogram's phases are distinct and are exactly the results; its counts are the multiplicities and sum to the number of results |
| ResultsDisplay.Key | src/components/quantum/ResultsDisplay.tsx:88 | the sort key `parseInt(phase, 2)` of an m-bit phase is below 2^m |
| ResultsDisplay.Insert | src/components/quantum/ResultsDisplay.tsx:88 | inserting an entry adds exactly that entry to the multiset |
| ResultsDisplay.InsertKeepsSorted | src/components/quantum/ResultsDisplay.tsx:88 | inserting into a list sorted by binary value keeps it sorted |
| ResultsDisplay.InsertKeepsLowerBound | src/components/quantum/ResultsDisplay.tsx:88 | inserting into entries whose binary values are all at least k, an entry whose value is at least k, keeps every value at least k |
| ResultsDisplay.SortByValue | src/components/quantum/ResultsDisplay.tsx:88 | the sort by `parseInt(phase, 2)` returns a sorted permutation of the entries |
| ResultsDisplay.SortKeepsEntries | src/components/quantum/ResultsDisplay.tsx:88 | the sort keeps the length and exactly the entries of the histogram |
| ResultsDisplay.DisplayedHistogram | src/components/quantum/ResultsDisplay.tsx:87-89 | the list shown has min(8, number of distinct phases) entries, each taken from the histogram |
| ResultsDisplay.SortedPrefixIsSmallest | src/components/quantum/ResultsDisplay.tsx:89 | a prefix of a sorted list is sorted, and no entry left out is smaller than an entry kept |
| ResultsDisplay.DisplayedHistogramOrder | src/components/quantum/ResultsDisplay.tsx:87-89 | the displayed histogram has min(8, #phases) entries; they come from the histogram, ascend by binary value, and are the smallest |
| ResultsDisplay.PhaseDecimal | src/components/quantum/ResultsDisplay.tsx:92 | `parseInt(s, 2) / 2^\|s\|` lies in [0, 1) |
| ResultsDisplay.Filter | src/components/quantum/ResultsDisplay.tsx:30-31 | `filter(r => r === v)` keeps exactly the occurrences of v |
| ResultsDisplay.SamplingOnes | src/components/quantum/ResultsDisplay.tsx:30 | the count of "1" samples is the multiplicity of "1" in the results, at most their number |
| ResultsDisplay.SamplingZeros | src/components/quantum/ResultsDisplay.tsx:31 | the count of "0" samples is the multiplicity of "0" in the results, at most their number |
| ResultsDisplay.OnesAndZerosCoverSamples | src/components/quantum/ResultsDisplay.tsx:30-31 | when every sample is "0" or "1", ones plus zeros is the number of samples |
| ResultsDisplay.SamplingRatio | src/components/quantum/ResultsDisplay.tsx:32 | the ratio is 0 for no samples, otherwise ones / length, in [0, 1] |
| ResultsDisplay.SpeedupAtLeastOne | src/components/quantum/ResultsDisplay.tsx:35-36 | when the depth shown is `ceil(1/ε)` for the ε shown, the speed-up is at least 1 and the resource reduction (line 147) is not negative |
| ResultsDisplay.SpeedupBelowOne | src/components/quantum/ResultsDisplay.tsx:147 | when the depth shown exceeds the sample count shown, the speed-up is below 1 and the reduction is negative |
| Progress.Advance | src/components/quantum/SamplingSection.tsx:33-43 | a tick adds the step clamped at 100; it stays within 0..100, never decreases, and reaches 100 exactly when prev + step ≥ 100 |
| Progress.AfterTicks | src/components/quantum/SamplingSection.tsx:32-43 | any number of ticks from 0 leaves the bar within 0..100 |
| Progress.AfterTicksClosedForm | src/components/quantum/SamplingSection.tsx:33-34 | from 0, n ticks of size s give min(s·n, 100) |
| SamplingSection.SamplingActive | src/components/quantum/SamplingSection.tsx:29 | the sampling interval starts only while running, and only at step 1 |
| SamplingSection.SamplingFullAfterTenTicks | src/components/quantum/SamplingSection.tsx:33-34 | from 0, the bar reaches 100 exactly from the tenth tick on; before that it stands at 10·n |
| SamplingSection.SamplingPanel.constructor | src/components/quantum/SamplingSection.tsx:25-26 | progress 0, no local results |
| SamplingSection.SamplingPanel.Tick | src/components/quantum/SamplingSection.tsx:32-43 | progress advances by 10 clamped at 100; on the tick that fills the bar, `min(20, nsample)` bits are drawn, otherwise the local results stay |
| SamplingSection.DisplayResults | src/components/quantum/SamplingSection.tsx:51 | the parent's results when there are any, else the panel's own |
| SamplingSection.ShownSamples | src/components/quantum/SamplingSection.tsx:121 | `slice(0, 50)` shows the first min(50, n) samples |
| SamplingSection.MoreSamples | src/components/quantum/SamplingSection.tsx:132-134 | the "… more samples" note appears exactly when there are over 50 samples, and its count plus 50 is the total |
| SamplingSection.ShownAndMoreAccountForAll | src/components/quantum/SamplingSection.tsx:121-134 | at most 50 samples are shown, the first ones; the overflow note appears exactly when some are left out, and it counts exactly those |
| PhaseEstimationSection.AnimationActive | src/components/quantum/PhaseEstimationSection.tsx:27 | the circuit animation and the QFT block (line 160) run only while running, and only from step 2 on |
| PhaseEstimationSection.NextCircuitStep | src/components/quantum/PhaseEstimationSection.tsx:38 | `(prev + 1) % 4` stays in 0..3 and wraps from 3 to 0 |
| PhaseEstimationSection.CircuitStepAfterTicks | src/components/quantum/PhaseEstimationSection.tsx:38 | after n ≥ 1 ticks the circuit step is (start + n) mod 4 |
| PhaseEstimationSection.CircuitStepPeriodFour | src/components/quantum/PhaseEstimationSection.tsx:38 | a step returns to itself after four ticks, and not after fewer |
| PhaseEstimationSection.QftFullAfterSevenTicks | src/components/quantum/PhaseEstimationSection.tsx:30-31 | from 0 the QFT bar is at 90 after six ticks and full exactly from the seventh on |
| PhaseEstimationSection.GateIndex | src/components/quantum/PhaseEstimationSection.tsx:89-118 | each gate glows at one circuit step in 0..3 (H 0, controlled-U 1, QFT† 2, measurement 3) |
| PhaseEstimationSection.GlowingGates | src/components/quantum/PhaseEstimationSection.tsx:89-118 | at most one gate glows, and none when idle or at a step outside 0..3 |
| PhaseEstimationSection.ExactlyOneGateGlows | src/components/quantum/PhaseEstimationSection.tsx:89-118 | while running, exactly the gate of the current step glows on an ancilla row; when idle, none does |
| PhaseEstimationSection.EveryGateGlowsOncePerCycle | src/components/quantum/PhaseEstimationSection.tsx:38 | every gate glows at least once within any four consecutive ticks |
| PhaseEstimationSection.GlowsOnceWithinFour | src/components/quantum/PhaseEstimationSection.tsx:38 | within four consecutive ticks, no gate glows twice |
| PhaseEstimationSection.AncillaRows | src/components/quantum/PhaseEstimationSection.tsx:81 | one circuit row per ancilla qubit, each with the same glowing gates |
| PhaseEstimationSection.TargetGlowsWithControlledU | src/components/quantum/PhaseEstimationSection.tsx:130-131 | the target qubit's Û glows exactly when the controlled-U gates do |
| PhaseEstimationSection.ShownMeasurements | src/components/quantum/PhaseEstimationSection.tsx:176 | at most 16 measurement results are shown, the first ones in order |
| PhaseEstimationSection.PhasePanel.constructor | src/components/quantum/PhaseEstimationSection.tsx:23-24 | QFT progress 0, circuit step 0 |
| PhaseEstimationSection.PhasePanel.Tick | src/components/quantum/PhaseEstimationSection.tsx:29-38 | the QFT bar advances by 15 clamped at 100 and the circuit step moves on; both stay in range |
| ControlPanel.EpsilonValue | src/components/quantum/ControlPanel.tsx:63-65 | each slider position denotes an ε in [0.01, 0.5], a whole number of hundredths |
| ControlPanel.SlidersEnabled | src/components/quantum/ControlPanel.tsx:67 | the ε, ancilla and noise sliders (lines 67, 115, 163) are enabled exactly when the run button offers to run |
| ControlPanel.ResetEnabled | src/components/quantum/ControlPanel.tsx:197-201 | the reset button is enabled exactly when the sliders are |
| ControlPanel.RunButtonLabel | src/components/quantum/ControlPanel.tsx:183 | the run button reads "Pause" exactly while running |
| ControlPanel.OnlyPauseWhileRunning | src/components/quantum/ControlPanel.tsx:67-201 | while running, the sliders and reset are disabled and the run button pauses; when idle, all are enabled and it runs |
| ControlPanel.BasisStates | src/components/quantum/ControlPanel.tsx:134 | 2^m basis states, between 8 and 256 |
| ControlPanel.PhaseResolution | src/components/quantum/ControlPanel.tsx:130 | the resolution is the reciprocal of the basis-state count, between 1/256 and 1/8 |
| ControlPanel.ExtraAncillaHalvesResolution | src/components/quantum/ControlPanel.tsx:130-134 | one more ancilla doubles the basis states and halves the resolution |
| QuantumSimulator.PhaseResults | src/components/QuantumSimulator.tsx:72-74 | the mock phase results are eight strings, the i-th being i padded to width m |
| QuantumSimulator.PhaseResultsRoundTrip | src/components/QuantumSimulator.tsx:72-74 | the eight phase strings are distinct, binary, of length m, and the i-th parses back to i |
| QuantumSimulator.MockResults | src/components/QuantumSimulator.tsx:68-77 | ten sample bits, one "1" or "0" per draw, the phase strings for the captured m, accuracy `max(0.7, 1 - ε)` (in [0.70, 0.99], never below 1 - ε), and the least depth d with d·ε ≥ 1, all for the captured ε |
| QuantumSimulator.ComparisonPanelFollowsResults | src/components/quantum/ResultsDisplay.tsx:170 | the comparison panel is shown after every completion and hidden after a reset |
| QuantumSimulator.AnimationsNeverStart | src/components/quantum/SamplingSection.tsx:29 | under the simulator's step invariant, neither the sampling gate nor the phase-estimation gate (PhaseEstimationSection.tsx:27) ever opens |
| QuantumSimulator.Simulation.constructor | src/components/QuantumSimulator.tsx:28-39 | ε = 0.1, 4 ancillas, idle at step 0, empty results; the invariants hold |
| QuantumSimulator.Simulation.ChangeEpsilon | src/components/QuantumSimulator.tsx:45-53 | sets ε and the derived ancilla count; replaces only the stored depth with `ceil(1/ε)`; keeps the rest; re-establishes depth consistency |
| QuantumSimulator.Simulation.ChangeAncillas | src/components/QuantumSimulator.tsx:145 | changes only the ancilla count |
| QuantumSimulator.Simulation.Run | src/components/QuantumSimulator.tsx:55-91 | while running it only pauses; when idle it starts at step 0 and schedules a completion capturing the current ε and m; nothing else changes; the step invariant is kept |
| QuantumSimulator.Simulation.Complete | src/components/QuantumSimulator.tsx:67-89 | as written, the completion always writes the mock results of the captured ε and m, ends the run and sets step 5; ε and m stay |
| QuantumSimulator.Simulation.CompleteIfCurrent | src/components/QuantumSimulator.tsx:67-89 | the intended completion acts only for the run in progress, leaves a stale one without effect, and keeps depth consistency |
| QuantumSimulator.Simulation.Reset | src/components/QuantumSimulator.tsx:93-105 | idle at step 0 with empty results; ε and m kept |
| QuantumSimulator.StaleCompletionScenario | src/components/QuantumSimulator.tsx:55-89 | run at ε = 0.01, pause, set ε = 0.5, let the timer fire: depth 100 is shown against 4 samples, a speed-up below 1 |
| QuantumSimulator.CancelledCompletionScenario | src/components/QuantumSimulator.tsx:55-89 | the same steps with the intended completion: the stale results never appear, and the next run completes with the depth of the current ε |
| Cryptography.ValidInput | src/components/quantum/Cryptography.tsx:16 | an input passes the guard exactly when it is an integer (not NaN) greater than 1 |
| Cryptography.EvenDoesNotDivideOdd | src/components/quantum/Cryptography.tsx:23-25 | skipping even candidates after 2 loses no divisor of an odd N |
| Cryptography.PrimeIfNoSmallDivisor | src/components/quantum/Cryptography.tsx:24-27 | with no divisor below i and i·i > N, N is prime |
| Cryptography.FindFactor | src/components/quantum/Cryptography.tsx:22-28 | returns a divisor f of N with 2 ≤ f ≤ N and no smaller divisor above 1; f = N exactly when N is prime |
| Cryptography.SmallestDivisorAtMostCofactor | src/components/quantum/Cryptography.tsx:33-34 | for composite N the pair [f, N/f] multiplies back to N and is ascending |
| Cryptography.FactoringDemo.constructor | src/components/quantum/Cryptography.tsx:8-10 | the field holds 15; no factors, no error |
| Cryptography.FactoringDemo.SetInput | src/components/quantum/Cryptography.tsx:62 | stores the parsed field value, keeping the last result and error |
| Cryptography.FactoringDemo.HandleFactor | src/components/quantum/Cryptography.tsx:12-35 | clears the last result; NaN or N ≤ 1 gives the error message and no factors; otherwise no error, and [N] for a prime or [f, N/f] with f the least divisor |
| Cryptography.FactorFifteen | src/components/quantum/Cryptography.tsx:8-34 | the initial 15 factors as [3, 5] |
| Cryptography.FactorSeventeen | src/components/quantum/Cryptography.tsx:30-32 | the prime 17 is shown as [17] |
| Cryptography.FactorTwoPointFive | src/components/quantum/Cryptography.tsx:62 | the parsed value 2 passes the guard and is shown as [2]; that `parseInt` turns "2.5" into 2 is the input abstraction (string parsing is not modelled), not a proved fact |
| Cryptography.RejectOneAndNaN | src/components/quantum/Cryptography.tsx:16-19 | 1 and NaN are rejected with the message, and earlier factors are cleared |

## Left out

- Timers (`setTimeout`, `setInterval`, `clearInterval`) and effect scheduling are not modelled.
  Each callback body is a method that may be called after any sequence of other handlers. The
  model has no durations, so the 3-second completion racing the 200 ms / 300 ms ticks is not
  modelled.
- `Math.random()` is not modelled as a generator. Its draws are boolean parameters
  (`Complete`, `SamplingPanel.Tick`).
- Toasts, JSX structure, CSS classes, tooltips, icons, and `toFixed`/`toLocaleString`
  formatting are not modelled.
- The floating-point displays (`quantumAdvantage`, percentages, bar widths) are not modelled.
  Only the exact ratios behind them are stated, as Dafny reals.
- IEEE-754 evaluation of `1 / epsilon ** 2` and `Math.log2` is not modelled. The model states
  the exact values for ε in hundredths. At whole-number quotients, double rounding could differ
  in principle.
- The noise slider is not modelled. The simulator never passes `noiseLevel` or
  `onNoiseChange` to the control panel, so that slider has no behaviour.
- The slider's `number[]` value array is not modelled. `ChangeEpsilon` and `ChangeAncillas`
  take the first element, which the handlers use unchanged.
- JavaScript's ordering of integer-like object keys in `Object.entries` is not modelled. The
  histogram lists keys in first-occurrence order. This can matter only for ties in the sort,
  that is, different strings with the same binary value.
- The Number width of JavaScript is not modelled. `FindFactor` works on unbounded integers,
  and inputs beyond 2^53 lose precision in the source.
- String parsing is not modelled. The factoring field is modelled as the result of `parseInt`:
  an integer, or NaN.
- `src/components/quantum/QuantumSensing.tsx` and `src/components/quantum/BlochSphere.tsx` are
  not part of this model. They are floating-point heat maps, trigonometry and cosmetic
  rotation.
- The `Simulation` fields `current` and `issued` are not in the source. They record which
  completion belongs to the run in progress, so that `CompleteIfCurrent` can tell a stale
  completion from a live one.
- QuantumSimulator.Simulation.ChangeEpsilon: requires that no run is in progress. The handler
  itself has no guard; the ε slider that calls it carries `disabled={isRunning}`
  (ControlPanel.tsx:67).
- QuantumSimulator.Simulation.ChangeAncillas: requires that no run is in progress, for the same
  reason (ControlPanel.tsx:115).
- QuantumSimulator.Simulation.Consistent: states only that the stored circuit depth matches ε.
  The accuracy is not re-derived when ε changes, and after an ancilla override the phase
  strings keep their old width, so neither is part of the invariant.

## Findings

| source | as written | input that shows it | evidently intended | confidence | as-written member | corrected member |
|---|---|---|---|---|---|---|
| src/components/QuantumSimulator.tsx:67-89 | Pausing or resetting never cancels the completion timer. When it fires, it writes results built from the ε of the run's start and marks the run finished, whatever happened in between. | Set ε = 0.01, run, pause, set ε = 0.5, then let the timer fire. The results panel then divides 4 classical samples (ε = 0.5) by depth 100 (ε = 0.01). Its speed-up ratio is 0.04, displayed as "0.0×" (ResultsDisplay.tsx:129) and "0× faster" (:162), with a −2400% resource reduction. | Only the completion of the run still in progress takes effect. A paused, reset or superseded run's completion is ignored, so the depth shown always belongs to the ε shown. | medium, not executed | QuantumSimulator.StaleCompletionScenario | QuantumSimulator.Simulation.CompleteIfCurrent |
