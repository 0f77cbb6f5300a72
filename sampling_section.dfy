/** The direct-sampling panel: a progress bar that fills in steps of 10 and, when full, draws up
    to 20 mock samples of its own; and the list of samples it shows. */
module SamplingSection {
  import opened Numbers
  import opened Binary
  import opened Progress

  /** The effect starts the sampling interval only when `isRunning && currentStep === 1`. */
  predicate SamplingActive(isRunning: bool, currentStep: int)
    ensures SamplingActive(isRunning, currentStep) ==> isRunning
    ensures currentStep != 1 ==> !SamplingActive(isRunning, currentStep)
  {
    isRunning && currentStep == 1
  }

  /** From 0 the bar is below 100 for the first nine ticks (at 10, 20, ..., 90) and full at the
      tenth. */
  lemma SamplingFullAfterTenTicks(n: nat)
    ensures AfterTicks(10, n) == 100 <==> n >= 10
    ensures n < 10 ==> AfterTicks(10, n) == 10 * n
  {
    AfterTicksClosedForm(10, n);
  }

  /** The samples listed: the parent's results when there are any, else the panel's own. */
  function DisplayResults(results: seq<string>, localResults: seq<string>): (d: seq<string>)
    ensures d == results || d == localResults
    ensures |d| > 0 <==> |results| > 0 || |localResults| > 0
    ensures |results| > 0 ==> d == results
  {
    if |results| > 0 then results else localResults
  }

  /** `displayResults.slice(0, 50)`: the samples drawn in the grid. */
  function ShownSamples(d: seq<string>): (shown: seq<string>)
    ensures |shown| == Min(50, |d|)
    ensures shown == d[..|shown|]
  {
    d[..Min(50, |d|)]
  }

  /** The count in "... and N more samples", present only when more than 50 samples exist. */
  function MoreSamples(d: seq<string>): (more: Option<nat>)
    ensures more.Some? <==> |d| > 50
    ensures more.Some? ==> more.value + 50 == |d| && more.value > 0
  {
    if |d| > 50 then Some(|d| - 50) else None
  }

  /** The grid shows at most 50 samples, the first ones in order; the overflow note appears
      exactly when samples are left out, and it counts exactly those. */
  lemma ShownAndMoreAccountForAll(d: seq<string>)
    ensures |ShownSamples(d)| <= 50
    ensures d == ShownSamples(d) + d[|ShownSamples(d)|..]
    ensures MoreSamples(d).Some? <==> |ShownSamples(d)| < |d|
    ensures MoreSamples(d).Some? ==> |ShownSamples(d)| + MoreSamples(d).value == |d|
  {
  }

  class SamplingPanel {
    var samplingProgress: int
    var localResults: seq<string>

    ghost predicate Valid()
      reads this
    {
      0 <= samplingProgress <= 100 &&
      forall i :: 0 <= i < |localResults| ==> localResults[i] == "0" || localResults[i] == "1"
    }

    constructor ()
      ensures Valid()
      ensures samplingProgress == 0 && localResults == []
    {
      samplingProgress := 0;
      localResults := [];
    }

    /** One interval tick. On the tick that fills the bar the panel draws `min(20, nsample)`
        fresh samples; `draws` stands for the `Math.random()` calls. */
    method Tick(nsample: nat, draws: seq<bool>)
      requires Valid()
      requires |draws| == Min(20, nsample)
      modifies this
      ensures Valid()
      ensures samplingProgress == Advance(old(samplingProgress), 10)
      ensures old(samplingProgress) <= samplingProgress
      ensures samplingProgress == 100 ==> localResults == CoinFlips(draws) && |localResults| == Min(20, nsample)
      ensures samplingProgress < 100 ==> localResults == old(localResults)
    {
      var newProgress := samplingProgress + 10;
      if newProgress >= 100 {
        localResults := CoinFlips(draws);
        samplingProgress := 100;
      } else {
        samplingProgress := newProgress;
      }
    }
  }
}
