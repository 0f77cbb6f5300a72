/** The progress-bar tick shared by the sampling and the phase-estimation panels: the state
    updater `prev => { const p = prev + step; if (p >= 100) { ...; return 100; } return p; }`. */
module Progress {
  import opened Numbers

  /** One tick: add `step`, clamped at 100. Never decreases a value in 0..100 and never leaves it. */
  function Advance(p: int, step: nat): (r: int)
    ensures p <= 100 ==> p <= r <= 100
    ensures r == 100 <==> p + step >= 100
  {
    if p + step >= 100 then 100 else p + step
  }

  /** The progress after n ticks from 0: always within 0..100. */
  function AfterTicks(step: nat, n: nat): (p: int)
    ensures 0 <= p <= 100
  {
    if n == 0 then 0 else Advance(AfterTicks(step, n - 1), step)
  }

  /** After n ticks from 0 the bar stands at min(step * n, 100). */
  lemma {:induction false} AfterTicksClosedForm(step: nat, n: nat)
    ensures AfterTicks(step, n) == Min(step * n, 100)
  {
    if n > 0 {
      AfterTicksClosedForm(step, n - 1);
      assert step * n == step * (n - 1) + step;
    }
  }
}
