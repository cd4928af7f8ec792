/**
  The hand-drawn spectrum widget (`SpectrumView` in src/spectrumview.cpp):
  the stored points with their magnitudes clamped to the decibel range, and
  the zoom/pan state that decides the visible frequency window.  The
  log-scale mapping from pixels to frequencies is not modelled; the zoom
  rectangle arrives as the two frequencies it selects.
 */
module SpectrumPlot {
  import opened Common

  datatype Point = Point(frequency: real, magnitude: real)

  /** `m_spectrumData` and the range, zoom and pan fields. */
  datatype Plot = Plot(points: seq<Point>,
                       minFrequency: real, maxFrequency: real,
                       minDB: real, maxDB: real,
                       zoom: real, pan: real)

  /** The field initialisers of the header. */
  const Initial: Plot := Plot([], 20.0, 20000.0, -100.0, 100.0, 1.0, 0.0)

  /** Zoom bounds and per-notch factors of the wheel handler. */
  const MinZoom: real := 1.0
  const MaxZoom: real := 100.0
  const ZoomInStep: real := 1.1
  const ZoomOutStep: real := 0.9

  /** The full frequency range `R = maxF - minF`. */
  function Span(v: Plot): real
  {
    v.maxFrequency - v.minFrequency
  }

  // ---------------------------------------------------------------------
  // Points

  /** `setSpectrumData`: pairs of unequal length are ignored; otherwise the
      points are replaced, each magnitude clamped into [minDB, maxDB]. */
  function SetSpectrumData(v: Plot, freqs: seq<real>, mags: seq<real>): (r: Plot)
    ensures |freqs| != |mags| ==> r == v
    ensures |freqs| == |mags| ==> r == v.(points := r.points) && |r.points| == |freqs|
    ensures |freqs| == |mags| ==> forall i :: 0 <= i < |freqs| ==>
      && r.points[i].frequency == freqs[i]
      && (v.minDB <= v.maxDB ==> v.minDB <= r.points[i].magnitude <= v.maxDB)
      && (v.minDB <= mags[i] <= v.maxDB ==> r.points[i].magnitude == mags[i])
      && (mags[i] < v.minDB ==> r.points[i].magnitude == v.minDB)
      && (v.minDB <= v.maxDB < mags[i] ==> r.points[i].magnitude == v.maxDB)
  {
    if |freqs| != |mags| then v
    else
      v.(points := seq(|freqs|, i requires 0 <= i < |freqs| =>
                         Point(freqs[i], Bound(v.minDB, mags[i], v.maxDB))))
  }

  function Frequencies(ps: seq<Point>): (r: seq<real>)
    ensures |r| == |ps| && forall i :: 0 <= i < |ps| ==> r[i] == ps[i].frequency
  {
    seq(|ps|, i requires 0 <= i < |ps| => ps[i].frequency)
  }

  function Magnitudes(ps: seq<Point>): (r: seq<real>)
    ensures |r| == |ps| && forall i :: 0 <= i < |ps| ==> r[i] == ps[i].magnitude
  {
    seq(|ps|, i requires 0 <= i < |ps| => ps[i].magnitude)
  }

  /** The clamp is idempotent: handing the stored points back in stores
      them again unchanged. */
  lemma SetSpectrumDataIdempotent(v: Plot, freqs: seq<real>, mags: seq<real>)
    requires |freqs| == |mags|
    ensures var r := SetSpectrumData(v, freqs, mags);
            SetSpectrumData(r, Frequencies(r.points), Magnitudes(r.points)) == r
  {
    var r := SetSpectrumData(v, freqs, mags);
    var r2 := SetSpectrumData(r, Frequencies(r.points), Magnitudes(r.points));
    assert r2.points == r.points;
  }

  /** `clear`: only the points go. */
  function Clear(v: Plot): (r: Plot)
    ensures r.points == [] && r == v.(points := [])
  {
    v.(points := [])
  }

  /** New data replaces the points wholesale, so clearing first makes no
      difference to it. */
  lemma ClearThenData(v: Plot, freqs: seq<real>, mags: seq<real>)
    requires |freqs| == |mags|
    ensures SetSpectrumData(Clear(v), freqs, mags) == SetSpectrumData(v, freqs, mags)
  {
  }

  function SetFrequencyRange(v: Plot, minFreq: real, maxFreq: real): (r: Plot)
    ensures r.minFrequency == minFreq && r.maxFrequency == maxFreq
    ensures r == v.(minFrequency := minFreq, maxFrequency := maxFreq)
  {
    v.(minFrequency := minFreq, maxFrequency := maxFreq)
  }

  function SetDecibelRange(v: Plot, minDB: real, maxDB: real): (r: Plot)
    ensures r.minDB == minDB && r.maxDB == maxDB
    ensures r == v.(minDB := minDB, maxDB := maxDB)
  {
    v.(minDB := minDB, maxDB := maxDB)
  }

  // ---------------------------------------------------------------------
  // The visible window

  datatype Window = Window(lo: real, hi: real)

  /** `getVisibleMinFreq` and `getVisibleMaxFreq`; with zoom 0 the source
      divides by zero, which the model reports as no window. */
  function VisibleWindow(v: Plot): (w: Option<Window>)
    ensures w.None? <==> v.zoom == 0.0
    ensures w.Some? ==> w.value.hi - w.value.lo == Span(v) / v.zoom
    ensures w.Some? ==> (w.value.lo + w.value.hi) / 2.0
                        == (v.minFrequency + v.maxFrequency) / 2.0 + v.pan
  {
    if v.zoom == 0.0 then None
    else
      var visibleMin := v.minFrequency + v.pan;
      var visibleMax := v.maxFrequency + v.pan;
      var range := visibleMax - visibleMin;
      Some(Window(visibleMin + (range - range / v.zoom) / 2.0,
                  visibleMax - (range - range / v.zoom) / 2.0))
  }

  /** `zoomReset`: zoom 1 and pan 0, nothing else. */
  function ZoomReset(v: Plot): (r: Plot)
    ensures r == v.(zoom := 1.0, pan := 0.0)
    ensures VisibleWindow(r) == Some(Window(v.minFrequency, v.maxFrequency))
  {
    v.(zoom := 1.0, pan := 0.0)
  }

  /** The initial plot shows exactly its frequency range. */
  lemma InitialWindow()
    ensures VisibleWindow(Initial) == Some(Window(20.0, 20000.0))
  {
  }

  // ---------------------------------------------------------------------
  // Wheel and drag

  /** The pan limit both handlers use: `R * (zoom - 1) / 2`. */
  function MaxPan(v: Plot): real
  {
    Span(v) * (v.zoom - 1.0) / 2.0
  }

  /** `pan` clamped into [-MaxPan, MaxPan]. */
  function ClampPan(v: Plot): (r: Plot)
    ensures r == v.(pan := r.pan)
    ensures 0.0 <= MaxPan(v) ==> -MaxPan(v) <= r.pan <= MaxPan(v)
    ensures -MaxPan(v) <= v.pan <= MaxPan(v) ==> r == v
    ensures 0.0 <= MaxPan(v) < v.pan ==> r.pan == MaxPan(v)
    ensures 0.0 <= MaxPan(v) && v.pan < -MaxPan(v) ==> r.pan == -MaxPan(v)
  {
    var limit := MaxPan(v);
    v.(pan := Bound(-limit, v.pan, limit))
  }

  lemma SpanZoomSign(span: real, zoom: real)
    ensures 0.0 <= span && 1.0 <= zoom ==> 0.0 <= span * (zoom - 1.0)
  {
  }

  lemma StepDirection(zoom: real, step: real)
    ensures 0.0 <= zoom && 1.0 <= step ==> zoom <= zoom * step
    ensures 0.0 <= zoom && step <= 1.0 ==> zoom * step <= zoom
  {
  }

  /** The zoom factor of one wheel notch: in for a forward notch, out for
      anything else. */
  function ZoomStep(angleY: int): real
  {
    if angleY > 0 then ZoomInStep else ZoomOutStep
  }

  /** The zoom after one wheel notch, clamped to [1, 100]. */
  function WheelZoom(zoom: real, angleY: int): (z: real)
    ensures z == Bound(MinZoom, zoom * ZoomStep(angleY), MaxZoom)
    ensures MinZoom <= z <= MaxZoom
    ensures MinZoom <= zoom <= MaxZoom && 0 < angleY ==> zoom <= z
    ensures MinZoom <= zoom <= MaxZoom && angleY <= 0 ==> z <= zoom
  {
    StepDirection(zoom, ZoomStep(angleY));
    Bound(MinZoom, zoom * ZoomStep(angleY), MaxZoom)
  }

  /** `wheelEvent`: one notch multiplies the zoom by 1.1 (up) or 0.9
      (otherwise), clamped to [1, 100], and the pan is clamped to the new
      limit. */
  function Wheel(v: Plot, angleY: int): (r: Plot)
    ensures r == v.(zoom := r.zoom, pan := r.pan)
    ensures r.zoom == Bound(MinZoom, v.zoom * ZoomStep(angleY), MaxZoom)
    ensures MinZoom <= r.zoom <= MaxZoom
    ensures MinZoom <= v.zoom <= MaxZoom && 0 < angleY ==> v.zoom <= r.zoom
    ensures MinZoom <= v.zoom <= MaxZoom && angleY <= 0 ==> r.zoom <= v.zoom
    ensures 0.0 <= Span(v) ==> -MaxPan(r) <= r.pan <= MaxPan(r)
    ensures r.zoom == MinZoom ==> r.pan == 0.0
    ensures -MaxPan(r) <= v.pan <= MaxPan(r) ==> r.pan == v.pan
    ensures 0.0 <= MaxPan(r) < v.pan ==> r.pan == MaxPan(r)
    ensures 0.0 <= MaxPan(r) && v.pan < -MaxPan(r) ==> r.pan == -MaxPan(r)
  {
    var zoomed := v.(zoom := WheelZoom(v.zoom, angleY));
    SpanZoomSign(Span(v), zoomed.zoom);
    var r := ClampPan(zoomed);
    assert MaxPan(r) == MaxPan(zoomed);
    r
  }

  /** A wheel notch zooms about the middle of the window: unless the clamp
      moves the pan, the window keeps its midpoint, and its width times the
      zoom stays the full range. */
  lemma WheelKeepsCentre(v: Plot, angleY: int)
    requires v.zoom != 0.0
    requires -MaxPan(Wheel(v, angleY)) <= v.pan <= MaxPan(Wheel(v, angleY))
    ensures var before := VisibleWindow(v).value;
            var after := VisibleWindow(Wheel(v, angleY)).value;
            && (before.lo + before.hi) / 2.0 == (after.lo + after.hi) / 2.0
            && (after.hi - after.lo) * Wheel(v, angleY).zoom == (before.hi - before.lo) * v.zoom
  {
    var r := Wheel(v, angleY);
    assert Span(r) == Span(v) && MaxPan(r) == MaxPan(v.(zoom := r.zoom));
    assert r.pan == v.pan;
    WidthTimesZoom(v);
    WidthTimesZoom(r);
  }

  lemma WidthTimesZoom(v: Plot)
    requires v.zoom != 0.0
    ensures (VisibleWindow(v).value.hi - VisibleWindow(v).value.lo) * v.zoom == Span(v)
  {
    var w := VisibleWindow(v).value;
    assert w.hi - w.lo == Span(v) / v.zoom;
    ScaleDiv(Span(v), 1.0, v.zoom);
  }

  /** The pan a right-drag by `dx` pixels asks for before the clamp: the
      current pan moved against the mouse by `dx / width` of the visible
      width `R / zoom`. */
  function DragTarget(v: Plot, dx: int, width: int): (t: real)
    requires width > 0 && v.zoom != 0.0
    ensures (v.pan - t) * width as real == dx as real * (Span(v) / v.zoom)
  {
    var panPercent := dx as real / width as real;
    ScaleDiv(panPercent, Span(v), v.zoom);
    v.pan - panPercent * Span(v) / v.zoom
  }

  /** The right-drag part of `mouseMoveEvent`: the pan moves to the drag
      target, clamped into [-MaxPan, MaxPan].  The widget is at least 400
      pixels wide, so `width > 0`. */
  function Drag(v: Plot, dx: int, width: int): (r: Option<Plot>)
    requires width > 0
    ensures r.None? <==> v.zoom == 0.0
    ensures r.Some? ==> r.value == v.(pan := r.value.pan)
    ensures r.Some? && 0.0 <= MaxPan(v) ==> -MaxPan(v) <= r.value.pan <= MaxPan(v)
    ensures r.Some? && -MaxPan(v) <= DragTarget(v, dx, width) <= MaxPan(v) ==>
      r.value.pan == DragTarget(v, dx, width)
    ensures r.Some? && 0.0 <= MaxPan(v) < DragTarget(v, dx, width) ==> r.value.pan == MaxPan(v)
    ensures r.Some? && 0.0 <= MaxPan(v) && DragTarget(v, dx, width) < -MaxPan(v) ==>
      r.value.pan == -MaxPan(v)
  {
    if v.zoom == 0.0 then None
    else Some(ClampPan(v.(pan := DragTarget(v, dx, width))))
  }

  lemma ScaleDiv(a: real, s: real, z: real)
    requires z != 0.0
    ensures a * s / z == a * (s / z)
  {
  }

  /** Where the clamp does not bite, a drag by `dx` pixels moves the
      visible window by `dx / width` of its own width, against the mouse. */
  lemma DragShiftsWindow(v: Plot, dx: int, width: int)
    requires width > 0 && v.zoom != 0.0
    requires -MaxPan(v) <= DragTarget(v, dx, width) <= MaxPan(v)
    ensures Drag(v, dx, width).Some?
    ensures var w := VisibleWindow(v).value;
            var w2 := VisibleWindow(Drag(v, dx, width).value).value;
            w2.lo == w.lo - (dx as real / width as real) * (w.hi - w.lo)
            && w2.hi - w2.lo == w.hi - w.lo
  {
    ScaleDiv(dx as real / width as real, Span(v), v.zoom);
  }

  // ---------------------------------------------------------------------
  // Rubber-band zoom

  /** The assignments of `applyZoom`, given the two frequencies the band
      selects: zoom `R / (end - start)` (not clamped) and the pan that
      centres the selection.  Equal frequencies divide by zero. */
  function ApplyZoom(v: Plot, startFreq: real, endFreq: real): (r: Option<Plot>)
    ensures r.None? <==> startFreq == endFreq
    ensures r.Some? ==> r.value == v.(zoom := r.value.zoom, pan := r.value.pan)
    ensures r.Some? ==> r.value.zoom * (endFreq - startFreq) == Span(v)
  {
    if startFreq == endFreq then None
    else
      var newCenter := (startFreq + endFreq) / 2.0;
      var newWidth := endFreq - startFreq;
      Some(v.(zoom := Span(v) / newWidth,
              pan := newCenter - (v.minFrequency + v.maxFrequency) / 2.0))
  }

  /** After a rubber-band zoom the visible window is exactly the selected
      frequency range (for a non-empty frequency range). */
  lemma ApplyZoomShowsSelection(v: Plot, startFreq: real, endFreq: real)
    requires startFreq != endFreq && Span(v) != 0.0
    ensures ApplyZoom(v, startFreq, endFreq).Some?
    ensures VisibleWindow(ApplyZoom(v, startFreq, endFreq).value) == Some(Window(startFreq, endFreq))
  {
    var r := ApplyZoom(v, startFreq, endFreq).value;
    var w := endFreq - startFreq;
    assert r.zoom * w == Span(v);
    assert Span(r) / r.zoom == w;
  }

  /** The rubber-band zoom is not clamped: selecting 1 Hz of the initial
      range zooms far past the wheel's limit of 100. */
  lemma ApplyZoomPassesLimit()
    ensures ApplyZoom(Initial, 100.0, 101.0).Some?
    ensures ApplyZoom(Initial, 100.0, 101.0).value.zoom == 19980.0
  {
  }

  /** The pan limit `R * (zoom - 1) / 2` does not keep the window inside
      [minF, maxF]: one zoom-in notch followed by a drag across the whole
      widget shows frequencies above `maxF`. */
  lemma PanLeavesRange()
    ensures var r := Drag(Wheel(Initial, 120), -400, 400);
            r.Some? && VisibleWindow(r.value).Some?
            && VisibleWindow(r.value).value.hi > Initial.maxFrequency
  {
    var z := Wheel(Initial, 120);
    assert z.zoom == 1.1 && z.pan == 0.0;
    assert Span(z) == 19980.0;
    assert MaxPan(z) == 999.0;
    assert DragTarget(z, -400, 400) == 19980.0 / 1.1 > 999.0;
    var d := Drag(z, -400, 400).value;
    assert d.pan == 999.0;
    var w := VisibleWindow(d).value;
    assert w.hi == 20999.0 - (19980.0 - 19980.0 / 1.1) / 2.0;
    assert 19980.0 / 1.1 > 18000.0;
  }

  /** Corrected limit: half the part of the range the window does not
      show, `(R - R / zoom) / 2`, the largest pan that keeps the window
      inside [minF, maxF]. */
  function InsideLimit(v: Plot): real
    requires v.zoom != 0.0
  {
    (Span(v) - Span(v) / v.zoom) / 2.0
  }

  /** The window of a plot lies inside its frequency range exactly when the
      pan is within the corrected limit. */
  lemma InsideLimitExact(v: Plot)
    requires v.zoom != 0.0
    ensures var w := VisibleWindow(v).value;
            v.minFrequency <= w.lo && w.hi <= v.maxFrequency
            <==> -InsideLimit(v) <= v.pan <= InsideLimit(v)
  {
  }

  lemma InsideLimitSign(span: real, zoom: real)
    requires 0.0 <= span && 1.0 <= zoom
    ensures 0.0 <= span - span / zoom
  {
    assert span / zoom <= span;
  }

  /** Corrected pan clamp. */
  function ClampPanInside(v: Plot): (r: Plot)
    requires v.zoom != 0.0
    ensures r == v.(pan := r.pan)
    ensures 0.0 <= InsideLimit(v) ==> -InsideLimit(v) <= r.pan <= InsideLimit(v)
    ensures -InsideLimit(v) <= v.pan <= InsideLimit(v) ==> r == v
    ensures 0.0 <= InsideLimit(v) < v.pan ==> r.pan == InsideLimit(v)
    ensures 0.0 <= InsideLimit(v) && v.pan < -InsideLimit(v) ==> r.pan == -InsideLimit(v)
  {
    var limit := InsideLimit(v);
    v.(pan := Bound(-limit, v.pan, limit))
  }

  /** Corrected wheel handler: the same zoom step, the corrected clamp. */
  function WheelInside(v: Plot, angleY: int): (r: Plot)
    ensures r.zoom == Wheel(v, angleY).zoom
    ensures r == v.(zoom := r.zoom, pan := r.pan)
    ensures 0.0 <= Span(v) ==> -InsideLimit(r) <= r.pan <= InsideLimit(r)
  {
    var zoomed := v.(zoom := WheelZoom(v.zoom, angleY));
    if 0.0 <= Span(v) then
      InsideLimitSign(Span(v), zoomed.zoom);
      ClampPanInside(zoomed)
    else ClampPanInside(zoomed)
  }

  /** Corrected drag: the same target, the corrected clamp. */
  function DragInside(v: Plot, dx: int, width: int): (r: Option<Plot>)
    requires width > 0
    ensures r.None? <==> v.zoom == 0.0
    ensures r.Some? ==> r.value == v.(pan := r.value.pan)
    ensures r.Some? && 1.0 <= v.zoom && 0.0 <= Span(v) ==>
      -InsideLimit(v) <= r.value.pan <= InsideLimit(v)
    ensures r.Some? && -InsideLimit(v) <= DragTarget(v, dx, width) <= InsideLimit(v) ==>
      r.value.pan == DragTarget(v, dx, width)
    ensures r.Some? && 0.0 <= InsideLimit(v) < DragTarget(v, dx, width) ==>
      r.value.pan == InsideLimit(v)
    ensures r.Some? && 0.0 <= InsideLimit(v) && DragTarget(v, dx, width) < -InsideLimit(v) ==>
      r.value.pan == -InsideLimit(v)
  {
    if v.zoom == 0.0 then None
    else
      var moved := v.(pan := DragTarget(v, dx, width));
      if 1.0 <= v.zoom && 0.0 <= Span(v) then
        InsideLimitSign(Span(v), v.zoom);
        Some(ClampPanInside(moved))
      else Some(ClampPanInside(moved))
  }

  /** With the corrected clamp every wheel notch and every drag leaves the
      window inside the frequency range. */
  lemma CorrectedPanStaysInside(v: Plot, angleY: int, dx: int, width: int)
    requires 0.0 <= Span(v) && width > 0
    ensures var w := VisibleWindow(WheelInside(v, angleY)).value;
            v.minFrequency <= w.lo && w.hi <= v.maxFrequency
    ensures 1.0 <= v.zoom ==>
            var w := VisibleWindow(DragInside(v, dx, width).value).value;
            v.minFrequency <= w.lo && w.hi <= v.maxFrequency
  {
    InsideLimitExact(WheelInside(v, angleY));
    if 1.0 <= v.zoom {
      InsideLimitExact(DragInside(v, dx, width).value);
    }
  }
}
