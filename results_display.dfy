/** The statistics the results panel computes from a finished run: the phase histogram, the
    display order of its bars, the 0/1 counts of the sampling results and the speed-up figures. */
module ResultsDisplay {
  import opened Numbers
  import opened Binary
  import opened Params

  // ---------------------------------------------------------------------------------------
  // Phase histogram

  /** The fold `phaseResults.reduce((acc, r) => { acc[r] = (acc[r] || 0) + 1; return acc; }, {})`,
      processing the results from first to last. Its keys are exactly the distinct results and
      each count is the number of occurrences. */
  function Tally(xs: seq<string>): (h: map<string, nat>)
    ensures forall k :: k in h <==> k in xs
    ensures forall k :: k in h ==> h[k] == multiset(xs)[k]
    decreases |xs|
  {
    if xs == [] then map[]
    else
      var init, r := xs[..|xs| - 1], xs[|xs| - 1];
      var acc := Tally(init);
      assert xs == init + [r];
      assert multiset(xs) == multiset(init) + multiset{r};
      acc[r := (if r in acc then acc[r] else 0) + 1]
  }

  predicate Distinct(ks: seq<string>)
  {
    forall i, j :: 0 <= i < j < |ks| ==> ks[i] != ks[j]
  }

  /** The histogram's keys in the order the fold first inserts them. */
  function FirstOccurrences(xs: seq<string>): (ks: seq<string>)
    ensures Distinct(ks)
    ensures forall k :: k in ks <==> k in xs
    decreases |xs|
  {
    if xs == [] then []
    else
      var ks := FirstOccurrences(xs[..|xs| - 1]);
      var r := xs[|xs| - 1];
      assert xs == xs[..|xs| - 1] + [r];
      if r in ks then ks else ks + [r]
  }

  /** One bar of the histogram: a phase string and its count. */
  datatype Entry = Entry(phase: string, count: nat)

  function Phases(es: seq<Entry>): (ps: seq<string>)
    ensures |ps| == |es|
  {
    seq(|es|, i requires 0 <= i < |es| => es[i].phase)
  }

  /** `Object.entries(phaseHistogram)`: one entry per distinct result, counting its occurrences. */
  function Entries(xs: seq<string>): (es: seq<Entry>)
    ensures Phases(es) == FirstOccurrences(xs)
    ensures forall i :: 0 <= i < |es| ==> es[i].phase in xs && es[i].count == multiset(xs)[es[i].phase]
  {
    var h := Tally(xs);
    var ks := FirstOccurrences(xs);
    seq(|ks|, i requires 0 <= i < |ks| => Entry(ks[i], h[ks[i]]))
  }

  function SumCounts(es: seq<Entry>): nat
  {
    if es == [] then 0 else es[0].count + SumCounts(es[1..])
  }

  /** The sum of the multiplicities in `ms` of the keys `ks`. */
  function Multiplicities(ks: seq<string>, ms: multiset<string>): nat
  {
    if ks == [] then 0 else ms[ks[0]] + Multiplicities(ks[1..], ms)
  }

  lemma {:induction false} MultiplicitiesOfEmpty(ks: seq<string>)
    ensures Multiplicities(ks, multiset{}) == 0
  {
    if ks != [] {
      MultiplicitiesOfEmpty(ks[1..]);
    }
  }

  /** Adding one element x to the multiset adds one to the sum exactly when x is among the
      (distinct) keys. */
  lemma {:induction false} MultiplicitiesAddOne(ks: seq<string>, ms: multiset<string>, x: string)
    requires Distinct(ks)
    ensures Multiplicities(ks, ms + multiset{x}) == Multiplicities(ks, ms) + (if x in ks then 1 else 0)
  {
    if ks != [] {
      MultiplicitiesAddOne(ks[1..], ms, x);
      assert x in ks <==> x == ks[0] || x in ks[1..];
      assert x == ks[0] ==> x !in ks[1..];
    }
  }

  /** Summing the multiplicities of distinct keys that cover every element gives the length. */
  lemma {:induction false} MultiplicitiesCover(ks: seq<string>, xs: seq<string>)
    requires Distinct(ks)
    requires forall x :: x in xs ==> x in ks
    ensures Multiplicities(ks, multiset(xs)) == |xs|
    decreases |xs|
  {
    if xs == [] {
      MultiplicitiesOfEmpty(ks);
    } else {
      var rest := xs[1..];
      assert xs == [xs[0]] + rest;
      assert multiset(xs) == multiset(rest) + multiset{xs[0]};
      MultiplicitiesCover(ks, rest);
      MultiplicitiesAddOne(ks, multiset(rest), xs[0]);
    }
  }

  lemma {:induction false} SumCountsIsMultiplicities(es: seq<Entry>, ks: seq<string>, ms: multiset<string>)
    requires |es| == |ks|
    requires forall i :: 0 <= i < |es| ==> es[i].count == ms[ks[i]]
    ensures SumCounts(es) == Multiplicities(ks, ms)
  {
    if es != [] {
      SumCountsIsMultiplicities(es[1..], ks[1..], ms);
    }
  }

  /** The histogram has one entry per distinct result, each entry counts the occurrences of its
      phase, and the counts add up to the number of results. */
  lemma EntriesDescribeResults(xs: seq<string>)
    ensures Distinct(Phases(Entries(xs)))
    ensures forall x :: x in xs <==> x in Phases(Entries(xs))
    ensures forall i :: 0 <= i < |Entries(xs)| ==> Entries(xs)[i].count == multiset(xs)[Entries(xs)[i].phase]
    ensures SumCounts(Entries(xs)) == |xs|
  {
    var es, ks := Entries(xs), FirstOccurrences(xs);
    assert forall i :: 0 <= i < |es| ==> es[i].phase == ks[i] by {
      forall i | 0 <= i < |es| ensures es[i].phase == ks[i] {
        assert Phases(es)[i] == es[i].phase;
      }
    }
    SumCountsIsMultiplicities(es, ks, multiset(xs));
    MultiplicitiesCover(ks, xs);
  }

  // ---------------------------------------------------------------------------------------
  // Display order of the histogram bars

  predicate AllBinary(xs: seq<string>)
  {
    forall i :: 0 <= i < |xs| ==> IsBinary(xs[i])
  }

  /** The sort key `parseInt(phase, 2)`. Only binary phase strings are ever sorted (the
      histogram is drawn from phase results, which are binary); other strings get key 0. */
  function Key(e: Entry): (k: nat)
    ensures IsBinary(e.phase) ==> k < Pow2(|e.phase|)
    ensures !IsBinary(e.phase) ==> k == 0
  {
    if IsBinary(e.phase) then Value(e.phase) else 0
  }

  predicate SortedByValue(es: seq<Entry>)
  {
    forall i, j :: 0 <= i < j < |es| ==> Key(es[i]) <= Key(es[j])
  }

  /** Inserts e before the first entry whose value is not smaller; an entry that came earlier
      stays ahead of equal-valued ones, as in the engine's stable sort. */
  function Insert(e: Entry, s: seq<Entry>): (r: seq<Entry>)
    ensures multiset(r) == multiset(s) + multiset{e}
  {
    if s == [] || Key(e) <= Key(s[0]) then
      [e] + s
    else
      assert s == [s[0]] + s[1..];
      [s[0]] + Insert(e, s[1..])
  }

  lemma {:induction false} InsertKeepsSorted(e: Entry, s: seq<Entry>)
    requires SortedByValue(s)
    ensures SortedByValue(Insert(e, s))
  {
    if s != [] && Key(e) > Key(s[0]) {
      InsertKeepsSorted(e, s[1..]);
      InsertKeepsLowerBound(e, s[1..], Key(s[0]));
    }
  }

  /** Inserting an entry whose value is at least k into entries whose values are at least k
      gives entries whose values are at least k. */
  lemma {:induction false} InsertKeepsLowerBound(e: Entry, s: seq<Entry>, k: nat)
    requires Key(e) >= k
    requires forall i :: 0 <= i < |s| ==> Key(s[i]) >= k
    ensures forall i :: 0 <= i < |Insert(e, s)| ==> Key(Insert(e, s)[i]) >= k
  {
    if s != [] && Key(e) > Key(s[0]) {
      InsertKeepsLowerBound(e, s[1..], k);
    }
  }

  /** `Object.entries(...).sort(([a], [b]) => parseInt(a, 2) - parseInt(b, 2))`. */
  function SortByValue(es: seq<Entry>): (r: seq<Entry>)
    ensures SortedByValue(r)
    ensures multiset(r) == multiset(es)
  {
    if es == [] then []
    else
      assert es == [es[0]] + es[1..];
      InsertKeepsSorted(es[0], SortByValue(es[1..]));
      Insert(es[0], SortByValue(es[1..]))
  }

  /** The bars shown: the histogram entries sorted by binary value, at most eight of them. */
  function DisplayedHistogram(xs: seq<string>): (d: seq<Entry>)
    requires AllBinary(xs)
    ensures |d| == Min(8, |Entries(xs)|)
    ensures forall i :: 0 <= i < |d| ==> d[i] in Entries(xs)
  {
    var es := Entries(xs);
    var sorted := SortByValue(es);
    SortKeepsEntries(es);
    sorted[..Min(8, |sorted|)]
  }

  /** Sorting keeps the number of entries and which entries there are. */
  lemma SortKeepsEntries(es: seq<Entry>)
    ensures |SortByValue(es)| == |es|
    ensures forall e :: e in SortByValue(es) <==> e in es
  {
    var sorted := SortByValue(es);
    assert |multiset(sorted)| == |multiset(es)|;
    forall e ensures e in sorted <==> e in es {
      assert e in sorted <==> e in multiset(sorted);
      assert e in es <==> e in multiset(es);
    }
  }

  /** No bar in `d` has a larger value than e. */
  predicate NoneAbove(d: seq<Entry>, e: Entry)
  {
    forall i :: 0 <= i < |d| ==> Key(d[i]) <= Key(e)
  }

  /** A prefix of a sorted sequence is sorted and holds its smallest elements. */
  lemma SortedPrefixIsSmallest(sorted: seq<Entry>, n: nat)
    requires SortedByValue(sorted) && n <= |sorted|
    ensures SortedByValue(sorted[..n])
    ensures forall e :: e in sorted && e !in sorted[..n] ==> NoneAbove(sorted[..n], e)
  {
    var d := sorted[..n];
    forall e | e in sorted && e !in d ensures NoneAbove(d, e) {
      var j :| 0 <= j < |sorted| && sorted[j] == e;
      assert j >= n;
    }
  }

  /** The displayed bars are at most eight histogram entries, in ascending order of binary value,
      and they are the smallest ones: every entry left out has a value no smaller than any shown. */
  lemma DisplayedHistogramOrder(xs: seq<string>)
    requires AllBinary(xs)
    ensures |DisplayedHistogram(xs)| == Min(8, |Entries(xs)|)
    ensures SortedByValue(DisplayedHistogram(xs))
    ensures forall e :: e in DisplayedHistogram(xs) ==> e in Entries(xs)
    ensures forall e :: e in Entries(xs) && e !in DisplayedHistogram(xs) ==> NoneAbove(DisplayedHistogram(xs), e)
  {
    var es := Entries(xs);
    var sorted := SortByValue(es);
    var n := Min(8, |sorted|);
    SortKeepsEntries(es);
    SortedPrefixIsSmallest(sorted, n);
    assert DisplayedHistogram(xs) == sorted[..n];
  }

  /** `parseInt(phase, 2) / Math.pow(2, phase.length)`: the estimated phase, in [0, 1). */
  function PhaseDecimal(s: string): (phi: real)
    requires IsBinary(s)
    ensures 0.0 <= phi < 1.0
  {
    RatioBounds(Value(s), Pow2(|s|));
    (Value(s) as real) / (Pow2(|s|) as real)
  }

  // ---------------------------------------------------------------------------------------
  // Sampling statistics

  /** `xs.filter(r => r === v)`. */
  function Filter(xs: seq<string>, v: string): (r: seq<string>)
    ensures |r| == multiset(xs)[v]
    ensures |r| <= |xs|
    ensures forall i :: 0 <= i < |r| ==> r[i] == v
  {
    if xs == [] then []
    else
      assert xs == [xs[0]] + xs[1..];
      (if xs[0] == v then [v] else []) + Filter(xs[1..], v)
  }

  /** `samplingResults.filter(r => r === '1').length`: the number of ones. */
  function SamplingOnes(xs: seq<string>): (n: nat)
    ensures n == multiset(xs)["1"] && n <= |xs|
  {
    |Filter(xs, "1")|
  }

  /** `samplingResults.filter(r => r === '0').length`: the number of zeros. */
  function SamplingZeros(xs: seq<string>): (n: nat)
    ensures n == multiset(xs)["0"] && n <= |xs|
  {
    |Filter(xs, "0")|
  }

  predicate AllBits(xs: seq<string>)
  {
    forall i :: 0 <= i < |xs| ==> xs[i] == "0" || xs[i] == "1"
  }

  /** When every sample is "0" or "1", the two counts account for every sample. */
  lemma {:induction false} OnesAndZerosCoverSamples(xs: seq<string>)
    requires AllBits(xs)
    ensures SamplingOnes(xs) + SamplingZeros(xs) == |xs|
  {
    if xs != [] {
      assert xs == [xs[0]] + xs[1..];
      OnesAndZerosCoverSamples(xs[1..]);
    }
  }

  /** `samplingResults.length > 0 ? samplingOnes / samplingResults.length : 0`. */
  function SamplingRatio(xs: seq<string>): (r: real)
    ensures 0.0 <= r <= 1.0
    ensures |xs| == 0 ==> r == 0.0
    ensures |xs| > 0 ==> r * (|xs| as real) == SamplingOnes(xs) as real
  {
    if |xs| > 0 then
      var ones, len := SamplingOnes(xs), |xs|;
      RatioBounds(ones, len);
      var r := (ones as real) / (len as real);
      assert r * (len as real) == ones as real;
      r
    else
      0.0
  }

  /** The method-comparison panel is rendered only when there are sampling results. */
  predicate ComparisonShown(samplingResults: seq<string>)
  {
    |samplingResults| > 0
  }

  // ---------------------------------------------------------------------------------------
  // Quantum advantage

  /** When the circuit depth shown is ceil(1/ε) for the current ε, the speed-up factor
      `theoreticalSamples / circuitDepth` is at least 1 and the resource reduction
      `1 - circuitDepth / theoreticalSamples` is not negative. */
  lemma SpeedupAtLeastOne(epsilon: Eps, circuitDepth: nat)
    requires circuitDepth == Depth(epsilon)
    ensures circuitDepth > 0 && Nsample(epsilon) > 0
    ensures (Nsample(epsilon) as real) / (circuitDepth as real) >= 1.0
    ensures 1.0 - (circuitDepth as real) / (Nsample(epsilon) as real) >= 0.0
  {
    SamplesAtLeastDepth(epsilon);
    RatioBounds(Nsample(epsilon), circuitDepth);
    RatioBounds(circuitDepth, Nsample(epsilon));
  }

  /** When the depth on screen exceeds the sample count on screen, as after a stale completion,
      the speed-up factor falls below 1 and the resource reduction turns negative. */
  lemma SpeedupBelowOne(samples: nat, circuitDepth: nat)
    requires 0 < samples < circuitDepth
    ensures (samples as real) / (circuitDepth as real) < 1.0
    ensures 1.0 - (circuitDepth as real) / (samples as real) < 0.0
  {
    RatioBounds(samples, circuitDepth);
    var q := (circuitDepth as real) / (samples as real);
    assert q * (samples as real) == circuitDepth as real;
    assert (q - 1.0) * (samples as real) > 0.0;
  }
}
