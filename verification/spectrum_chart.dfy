/**
  The QtCharts spectrum widget (`SpectrumView` in spectrumview.cpp): the
  series it plots and the axis ranges `setSpectrum` picks, with the
  `ensureNonZeroRange` widening of a degenerate range.
 */
module SpectrumChart {
  import opened Common

  datatype Range = Range(lo: real, hi: real)

  datatype Sample = Sample(x: real, y: real)

  /** The series and the two axis ranges. */
  datatype Chart = Chart(series: seq<Sample>, xRange: Range, yRange: Range)

  /** The range both axes get when there is nothing to plot. */
  const UnitRange: Range := Range(0.0, 1.0)

  /** The padding `ensureNonZeroRange` declares as its default argument. */
  const DefaultPadding: real := 1.0

  /** The fraction of the span `setSpectrum` passes as padding. */
  const PaddingFraction: real := 0.05

  /** `ensureNonZeroRange`: a range with equal bounds is widened by
      `padding` on both sides; any other range is left as it is. */
  function EnsureNonZeroRange(r: Range, padding: real): (out: Range)
    ensures r.lo != r.hi ==> out == r
    ensures out.lo + out.hi == r.lo + r.hi
    ensures r.lo == r.hi ==> out.hi - out.lo == 2.0 * padding
  {
    if r.lo == r.hi then Range(r.lo - padding, r.hi + padding) else r
  }

  /** With a positive padding the result is never degenerate, and a range
      that is already proper comes back unchanged. */
  lemma NonZeroRangeProper(r: Range, padding: real)
    requires r.lo <= r.hi && padding > 0.0
    ensures EnsureNonZeroRange(r, padding).lo < EnsureNonZeroRange(r, padding).hi
    ensures EnsureNonZeroRange(EnsureNonZeroRange(r, padding), padding) == EnsureNonZeroRange(r, padding)
  {
  }

  /** The smallest element (the value `std::minmax_element` points at). */
  function SeqMin(s: seq<real>): (m: real)
    requires s != []
    ensures forall i :: 0 <= i < |s| ==> m <= s[i]
    ensures exists i :: 0 <= i < |s| && s[i] == m
  {
    if |s| == 1 then s[0]
    else
      var rest := SeqMin(s[1..]);
      assert forall i :: 1 <= i < |s| ==> s[i] == s[1..][i - 1];
      if s[0] <= rest then s[0] else rest
  }

  /** The largest element. */
  function SeqMax(s: seq<real>): (m: real)
    requires s != []
    ensures forall i :: 0 <= i < |s| ==> s[i] <= m
    ensures exists i :: 0 <= i < |s| && s[i] == m
  {
    if |s| == 1 then s[0]
    else
      var rest := SeqMax(s[1..]);
      assert forall i :: 1 <= i < |s| ==> s[i] == s[1..][i - 1];
      if rest <= s[0] then s[0] else rest
  }

  /** The first `n` pairs `(freq[i], amp[i])`, in order. */
  function Series(freq: seq<real>, amp: seq<real>, n: nat): (s: seq<Sample>)
    requires n <= |freq| && n <= |amp|
    ensures |s| == n && forall i :: 0 <= i < n ==> s[i] == Sample(freq[i], amp[i])
  {
    seq(n, i requires 0 <= i < n => Sample(freq[i], amp[i]))
  }

  /** The X bounds: first and last entry of the whole frequency vector. */
  function XBounds(freq: seq<real>): Range
    requires freq != []
  {
    Range(freq[0], freq[|freq| - 1])
  }

  /** The Y bounds: least and greatest amplitude of the whole vector, the
      lower one raised to 0 when negative. */
  function YBounds(amp: seq<real>): (r: Range)
    requires amp != []
    ensures r.lo >= 0.0 && r.hi == SeqMax(amp)
    ensures forall i :: 0 <= i < |amp| && amp[i] >= 0.0 ==> r.lo <= amp[i]
    ensures r.lo == 0.0 || exists i :: 0 <= i < |amp| && amp[i] == r.lo
    ensures SeqMin(amp) < 0.0 ==> r.lo == 0.0
    ensures 0.0 <= SeqMin(amp) ==> r.lo == SeqMin(amp)
  {
    var lo := SeqMin(amp);
    Range(if lo < 0.0 then 0.0 else lo, SeqMax(amp))
  }

  /** `setSpectrum` as written: the padding passed is 5% of the span. */
  function SetSpectrum(freq: seq<real>, amp: seq<real>): (c: Chart)
    ensures Min(|freq|, |amp|) <= 1 <==> c.series == []
    ensures Min(|freq|, |amp|) <= 1 ==> c.xRange == UnitRange && c.yRange == UnitRange
    ensures Min(|freq|, |amp|) > 1 ==> c.series == Series(freq, amp, Min(|freq|, |amp|))
  {
    var n := Min(|freq|, |amp|);
    if n <= 1 then Chart([], UnitRange, UnitRange)
    else
      var x := XBounds(freq);
      var y := YBounds(amp);
      Chart(Series(freq, amp, n),
            EnsureNonZeroRange(x, (x.hi - x.lo) * PaddingFraction),
            EnsureNonZeroRange(y, (y.hi - y.lo) * PaddingFraction))
  }

  /** As written the widening never happens: the padding is a fraction of
      a span that is 0 exactly when widening is asked for, so the axes are
      always the raw bounds. */
  lemma SetSpectrumNeverWidens(freq: seq<real>, amp: seq<real>)
    requires Min(|freq|, |amp|) > 1
    ensures SetSpectrum(freq, amp).xRange == XBounds(freq)
    ensures SetSpectrum(freq, amp).yRange == YBounds(amp)
  {
  }

  /** Two equal frequencies give a flat X axis. */
  lemma FlatAxisStaysFlat()
    ensures SetSpectrum([5.0, 5.0], [1.0, 2.0]).xRange == Range(5.0, 5.0)
  {
  }

  /** Amplitudes that are all negative give a Y axis whose lower bound (0)
      lies above its upper bound. */
  lemma NegativeAmplitudesInvertAxis(freq: seq<real>, amp: seq<real>)
    requires Min(|freq|, |amp|) > 1
    requires forall i :: 0 <= i < |amp| ==> amp[i] < 0.0
    ensures SetSpectrum(freq, amp).yRange.hi < SetSpectrum(freq, amp).yRange.lo
  {
    var i :| 0 <= i < |amp| && amp[i] == SeqMax(amp);
  }

  /** Corrected: a degenerate range is widened by the default padding of 1
      on each side; any other range is the raw bounds. */
  function SetSpectrumPadded(freq: seq<real>, amp: seq<real>): (c: Chart)
    ensures c.series == SetSpectrum(freq, amp).series
    ensures Min(|freq|, |amp|) <= 1 ==> c == SetSpectrum(freq, amp)
    ensures Min(|freq|, |amp|) > 1 && freq[0] == freq[|freq| - 1] ==>
      c.xRange == Range(freq[0] - 1.0, freq[0] + 1.0)
    ensures Min(|freq|, |amp|) > 1 && freq[0] != freq[|freq| - 1] ==>
      c.xRange == Range(freq[0], freq[|freq| - 1])
    ensures Min(|freq|, |amp|) > 1 && YBounds(amp).lo == YBounds(amp).hi ==>
      c.yRange == Range(YBounds(amp).lo - 1.0, YBounds(amp).hi + 1.0)
    ensures Min(|freq|, |amp|) > 1 && YBounds(amp).lo != YBounds(amp).hi ==>
      c.yRange == YBounds(amp)
  {
    var n := Min(|freq|, |amp|);
    if n <= 1 then Chart([], UnitRange, UnitRange)
    else
      Chart(Series(freq, amp, n),
            EnsureNonZeroRange(XBounds(freq), DefaultPadding),
            EnsureNonZeroRange(YBounds(amp), DefaultPadding))
  }

  /** The corrected axes are never flat: ascending frequencies give a proper
      X range, and amplitudes that are not all negative a proper Y range;
      where the bounds differ the ranges agree with the written version. */
  lemma PaddedAxesProper(freq: seq<real>, amp: seq<real>)
    requires Min(|freq|, |amp|) > 1
    ensures var c := SetSpectrumPadded(freq, amp);
            && c.xRange.lo != c.xRange.hi
            && (freq[0] <= freq[|freq| - 1] ==> c.xRange.lo < c.xRange.hi)
            && (YBounds(amp).lo <= YBounds(amp).hi ==> c.yRange.lo < c.yRange.hi)
    ensures freq[0] != freq[|freq| - 1] ==>
              SetSpectrumPadded(freq, amp).xRange == SetSpectrum(freq, amp).xRange
    ensures YBounds(amp).lo != YBounds(amp).hi ==>
              SetSpectrumPadded(freq, amp).yRange == SetSpectrum(freq, amp).yRange
  {
    var c := SetSpectrumPadded(freq, amp);
    if freq[0] <= freq[|freq| - 1] {
      NonZeroRangeProper(XBounds(freq), DefaultPadding);
    }
    if YBounds(amp).lo <= YBounds(amp).hi {
      NonZeroRangeProper(YBounds(amp), DefaultPadding);
    }
  }
}
