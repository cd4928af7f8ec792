/**
  The grid widget (`GridWidget` in gridwidget.cpp): samples, rate and a
  marker whose setter signals only real changes, the integer mapping from
  pixel columns to sample indices used to trace the wave, and the marker's
  pixel column.  The index product is a 32-bit `int` in the source and is
  modelled as wrapping in two's complement.
 */
module Grid {
  import opened Common

  const Int32Limit: int := 0x8000_0000
  const Int64Limit: int := 0x8000_0000_0000_0000

  /** `m_samples`, `m_sampleRate` and `m_markerPosition`. */
  datatype Grid = Grid(samples: seq<real>, sampleRate: nat, marker: real)

  const Initial: Grid := Grid([], 0, 0.0)

  /** `setSamples`: samples and rate are replaced, the marker stays. */
  function SetSamples(g: Grid, samples: seq<real>, sampleRate: nat): (r: Grid)
    ensures r.samples == samples && r.sampleRate == sampleRate && r.marker == g.marker
  {
    g.(samples := samples, sampleRate := sampleRate)
  }

  datatype MarkerChange = MarkerChange(grid: Grid, emitted: Option<real>)

  /** `setMarkerPosition`: a new value is stored and signalled; the value
      already held is neither stored again nor signalled. */
  function SetMarkerPosition(g: Grid, seconds: real): (c: MarkerChange)
    ensures c.grid == g.(marker := seconds)
    ensures c.emitted.Some? <==> seconds != g.marker
    ensures c.emitted.Some? ==> c.emitted.value == seconds
  {
    if g.marker != seconds then MarkerChange(g.(marker := seconds), Some(seconds))
    else MarkerChange(g, None)
  }

  /** Setting the same position twice signals at most once. */
  lemma MarkerRepeatSilent(g: Grid, seconds: real)
    ensures var once := SetMarkerPosition(g, seconds).grid;
            SetMarkerPosition(once, seconds) == MarkerChange(once, None)
  {
  }

  // ---------------------------------------------------------------------
  // Machine integers

  /** A mathematical integer reduced to a 32-bit `int`, as two's
      complement arithmetic does. */
  function Wrap32(v: int): (r: int)
    ensures -Int32Limit <= r < Int32Limit
    ensures -Int32Limit <= v < Int32Limit ==> r == v
  {
    (v + 0x8000_0000) % 0x1_0000_0000 - 0x8000_0000
  }

  /** The same for a 64-bit `qint64`. */
  function Wrap64(v: int): (r: int)
    ensures -Int64Limit <= r < Int64Limit
    ensures -Int64Limit <= v < Int64Limit ==> r == v
  {
    (v + 0x8000_0000_0000_0000) % 0x1_0000_0000_0000_0000 - 0x8000_0000_0000_0000
  }

  /** C++ integer division by a positive divisor: rounds toward zero. */
  function CDiv(a: int, d: int): (q: int)
    requires d > 0
    ensures 0 <= a ==> q == a / d
    ensures a < 0 ==> q <= 0 && a <= q * d < a + d
  {
    if a >= 0 then a / d
    else
      var m := -a;
      assert (m / d) * d <= m < (m / d) * d + d;
      -(m / d)
  }

  lemma DivBelow(a: int, d: int, n: int)
    requires 0 <= a && 0 < d && a < d * n
    ensures a / d < n
  {
    var q := a / d;
    if q >= n {
      assert false;
    }
  }

  lemma DivMonotone(a: int, b: int, d: int)
    requires 0 <= a <= b && 0 < d
    ensures a / d <= b / d
  {
    var qa, qb := a / d, b / d;
    assert qa * d <= a;
    assert b < (qb + 1) * d;
    if qa > qb {
      MulBelow(qb + 1, d, qa, d);
      assert false;
    }
  }

  lemma MulBelow(x: int, y: int, a: int, b: int)
    requires 0 <= x <= a && 0 <= y <= b
    ensures 0 <= x * y <= a * b
  {
    assert x * y <= a * y;
    assert a * y <= a * b;
  }

  // ---------------------------------------------------------------------
  // Column to sample index

  /** `(x * sampleCount) / w` with the product in a 32-bit `int`. */
  function SampleIndex(x: int, n: nat, w: int): int
    requires w > 0
  {
    CDiv(Wrap32(x * n), w)
  }

  /** Corrected: the product in 64 bits, where it cannot overflow for any
      `int` width and any vector length. */
  function SampleIndexWide(x: int, n: nat, w: int): int
    requires w > 0
  {
    CDiv(Wrap64(x * n), w)
  }

  /** The index either way: as written, or corrected. */
  function Index(x: int, n: nat, w: int, wide: bool): int
    requires w > 0
  {
    if wide then SampleIndexWide(x, n, w) else SampleIndex(x, n, w)
  }

  datatype Segment = Segment(first: int, second: int)

  /** Both indices of a segment read inside `n` samples. */
  predicate Inside(s: Segment, n: nat)
  {
    0 <= s.first < n && 0 <= s.second < n
  }

  /** The pair of indices column `x` draws between. */
  function Pair(x: int, n: nat, w: int, wide: bool): Segment
    requires w > 0
  {
    Segment(Index(x, n, w, wide), Index(x + 1, n, w, wide))
  }

  /** The index pairs of the wave loop from column `x` on, or the first
      column whose pair falls outside the samples. */
  function TraceFrom(n: nat, w: int, x: nat, wide: bool): (r: Result<seq<Segment>, nat>)
    requires w > 0
    ensures r.Ok? ==> |r.value| == Max(0, w - 1 - x)
    ensures r.Ok? ==> forall k :: 0 <= k < |r.value| ==>
      r.value[k] == Pair(x + k, n, w, wide) && Inside(r.value[k], n)
    ensures r.Err? ==> x <= r.error < w - 1 && !Inside(Pair(r.error, n, w, wide), n)
    ensures r.Err? ==> forall k :: x <= k < r.error ==> Inside(Pair(k, n, w, wide), n)
    decreases w - x
  {
    if x + 1 >= w then Ok([])
    else
      var s := Pair(x, n, w, wide);
      if !Inside(s, n) then Err(x)
      else
        match TraceFrom(n, w, x + 1, wide)
        case Err(e) => Err(e)
        case Ok(rest) =>
          var r: seq<Segment> := [s] + rest;
          assert forall k :: 1 <= k < |r| ==> r[k] == rest[k - 1] && x + k == (x + 1) + (k - 1);
          Ok(r)
  }

  /** The wave loop of `paintEvent` for `n` samples in a widget `w` pixels
      wide: nothing for no samples; the index pairs of every column, or
      the first column that reads outside the samples. */
  function Trace(n: nat, w: int): (r: Result<seq<Segment>, nat>)
    ensures n == 0 || w <= 1 ==> r == Ok([])
    ensures n > 0 && r.Ok? ==> |r.value| == Max(0, w - 1)
    ensures r.Err? ==>
      && n > 0 && w > 0 && r.error < w - 1
      && !Inside(Segment(SampleIndex(r.error, n, w), SampleIndex(r.error + 1, n, w)), n)
    ensures r.Err? ==> forall k :: 0 <= k < r.error ==> Inside(Segment(SampleIndex(k, n, w), SampleIndex(k + 1, n, w)), n)
    ensures n > 0 && w > 0 && r.Ok? ==> forall k :: 0 <= k < |r.value| ==>
      r.value[k] == Segment(SampleIndex(k, n, w), SampleIndex(k + 1, n, w))
      && Inside(r.value[k], n)
  {
    if n == 0 || w <= 0 then Ok([])
    else
      assert forall k :: Pair(k, n, w, false) == Segment(SampleIndex(k, n, w), SampleIndex(k + 1, n, w));
      TraceFrom(n, w, 0, false)
  }

  /** The corrected wave loop. */
  function TraceWide(n: nat, w: int): (r: Result<seq<Segment>, nat>)
    ensures n == 0 || w <= 1 ==> r == Ok([])
    ensures n > 0 && r.Ok? ==> |r.value| == Max(0, w - 1)
    ensures n > 0 && w > 0 && r.Ok? ==> forall k :: 0 <= k < |r.value| ==>
      r.value[k] == Segment(SampleIndexWide(k, n, w), SampleIndexWide(k + 1, n, w))
      && Inside(r.value[k], n)
  {
    if n == 0 || w <= 0 then Ok([])
    else
      assert forall k :: Pair(k, n, w, true) == Segment(SampleIndexWide(k, n, w), SampleIndexWide(k + 1, n, w));
      TraceFrom(n, w, 0, true)
  }

  /** Exact division keeps consecutive column indices ordered and inside
      the samples. */
  lemma ExactIndexInRange(x: int, n: nat, w: int)
    requires n >= 1 && 0 <= x && x + 1 < w
    ensures 0 <= (x * n) / w <= ((x + 1) * n) / w < n
  {
    MulBelow(x, n, x + 1, n);
    DivMonotone(x * n, (x + 1) * n, w);
    assert (x + 1) * n + n == (x + 2) * n;
    MulBelow(x + 2, n, w, n);
    DivBelow((x + 1) * n, w, n);
  }

  /** Where the products do not overflow, either index is the exact one. */
  lemma IndexExact(x: int, n: nat, w: int, wide: bool)
    requires n >= 1 && 0 <= x && x + 1 < w
    requires wide ==> (x + 1) * n < Int64Limit
    requires !wide ==> (x + 1) * n < Int32Limit
    ensures Index(x, n, w, wide) == (x * n) / w && Index(x + 1, n, w, wide) == ((x + 1) * n) / w
  {
    MulBelow(x, n, x + 1, n);
  }

  lemma {:induction false} TraceFromOk(n: nat, w: int, x: nat, wide: bool)
    requires n >= 1 && w > 0
    requires wide ==> n < Int32Limit && w < Int32Limit
    requires !wide ==> (w - 1) * n < Int32Limit
    ensures TraceFrom(n, w, x, wide).Ok?
    decreases w - x
  {
    if x + 1 < w {
      if wide {
        MulBelow(x + 1, n, Int32Limit, Int32Limit);
      } else {
        MulBelow(x + 1, n, w - 1, n);
      }
      IndexExact(x, n, w, wide);
      ExactIndexInRange(x, n, w);
      TraceFromOk(n, w, x + 1, wide);
    }
  }

  /** While `(w - 1) * n` fits in an `int` every column reads inside the
      samples. */
  lemma TraceInBounds(n: nat, w: int)
    requires n >= 1 && w > 0 && (w - 1) * n < Int32Limit
    ensures Trace(n, w).Ok?
  {
    TraceFromOk(n, w, 0, false);
  }

  /** As written: five minutes of 44.1 kHz audio (13 230 000 samples) in an
      800-pixel widget overflow the product at column 163, where the index
      is negative.  The loop draws from column 162 to column 163, so 162 is
      the first column that reads outside the samples. */
  lemma LongSignalOverflows()
    ensures SampleIndex(163, 13230000, 800) < 0
    ensures Trace(13230000, 800) == Err(162)
  {
    var n, w := 13230000, 800;
    assert Wrap32(163 * n) == 2156490000 - 4294967296;
    assert !Inside(Segment(SampleIndex(162, n, w), SampleIndex(163, n, w)), n);
    var r := Trace(n, w);
    assert r.Err?;
    assert r.error >= 162 by {
      if r.error < 162 {
        MulBelow(r.error + 1, n, 162, n);
        IndexExact(r.error, n, w, false);
        ExactIndexInRange(r.error, n, w);
        assert false;
      }
    }
  }

  /** Corrected: with the product in 64 bits every column of any `int` width
      reads inside any vector of samples. */
  lemma WideTraceInBounds(n: nat, w: int)
    requires n >= 1 && w > 0 && n < Int32Limit && w < Int32Limit
    ensures TraceWide(n, w).Ok?
    ensures forall k :: 0 <= k < |TraceWide(n, w).value| ==>
      TraceWide(n, w).value[k].first <= TraceWide(n, w).value[k].second
  {
    TraceFromOk(n, w, 0, true);
    forall k | 0 <= k < |TraceWide(n, w).value|
      ensures TraceWide(n, w).value[k].first <= TraceWide(n, w).value[k].second
    {
      MulBelow(k + 1, n, Int32Limit, Int32Limit);
      IndexExact(k, n, w, true);
      ExactIndexInRange(k, n, w);
    }
  }

  // ---------------------------------------------------------------------
  // The marker column

  datatype MarkerColumn = Hidden | At(x: int) | DivideByZero

  lemma FractionOfWidth(f: real, width: real)
    ensures 0.0 <= f <= 1.0 && 0.0 <= width ==> 0.0 <= f * width <= width
  {
  }

  /** `marker / (n / rate)` is at most 1 exactly when the marker lies
      within the duration. */
  lemma ShareOfDuration(marker: real, n: real, rate: real)
    requires n > 0.0 && rate > 0.0 && marker > 0.0
    ensures marker / (n / rate) > 0.0
    ensures marker / (n / rate) == marker * rate / n
    ensures marker * rate <= n ==> marker / (n / rate) <= 1.0
  {
    assert marker / (n / rate) == marker * rate / n;
  }

  /** The marker's share of the total duration, `marker / (n / rate)`. */
  function Share(marker: real, n: real, rate: real): (s: real)
    requires n > 0.0 && rate > 0.0 && marker > 0.0
    ensures s > 0.0 && s == marker * rate / n
    ensures marker * rate <= n ==> s <= 1.0
  {
    ShareOfDuration(marker, n, rate);
    var totalDuration := n / rate;
    marker / totalDuration
  }

  /** The marker is drawn only for a positive position and rate; it sits at
      the position's share of the total duration across the width, and with
      no samples the duration it divides by is 0. */
  function MarkerX(g: Grid, width: int): (m: MarkerColumn)
    ensures m.Hidden? <==> !(g.marker > 0.0 && g.sampleRate > 0)
    ensures m.DivideByZero? <==> g.marker > 0.0 && g.sampleRate > 0 && g.samples == []
    ensures m.At? && 0 <= width && g.marker * g.sampleRate as real <= |g.samples| as real ==>
      0 <= m.x <= width
    ensures m.At? <==> g.marker > 0.0 && g.sampleRate > 0 && g.samples != []
    ensures m.At? ==> var n := |g.samples| as real;
      n > 0.0 && m.x == Trunc(g.marker * g.sampleRate as real / n * width as real)
  {
    if !(g.marker > 0.0 && g.sampleRate > 0) then Hidden
    else if g.samples == [] then DivideByZero
    else
      var n := |g.samples| as real;
      var share := Share(g.marker, n, g.sampleRate as real);
      FractionOfWidth(share, width as real);
      assert share * width as real == g.marker * g.sampleRate as real / n * width as real;
      At(Trunc(share * width as real))
  }
}
