/**
  The waveform widget (`WaveformView` in waveformview.cpp): the samples, the
  playback marker, the zoom, the horizontal scroll bar and the per-pixel
  min/max envelope `updateCachedPath` builds the outline from.  The widget
  width and height are parameters; the scroll bar is its value and maximum
  (its minimum is always 0), and like any `QScrollBar` it keeps the value
  inside its range.
 */
module Waveform {
  import opened Common

  const MinZoom: real := 0.5
  const MaxZoom: real := 100.0
  const ZoomInStep: real := 1.25
  const ZoomOutStep: real := 0.8

  /** `m_samples`, `m_sampleRate`, `m_markerSec`, `m_zoom` and the scroll
      bar's value and maximum. */
  datatype View = View(samples: seq<real>, sampleRate: nat, marker: real,
                       zoom: real, scroll: int, scrollMax: int)

  /** The header initialisers; a fresh scroll bar has range [0, 99]. */
  const Initial: View := View([], 0, 0.0, 1.0, 0, 99)

  /** The state every handler keeps: zoom within its bounds and the scroll
      value inside the scroll range. */
  predicate Valid(v: View)
  {
    MinZoom <= v.zoom <= MaxZoom && 0 <= v.scroll <= v.scrollMax
  }

  lemma InitialValid()
    ensures Valid(Initial)
  {
  }

  /** Length of the signal in seconds; 0 without a sample rate. */
  function Duration(v: View): (d: real)
    ensures d >= 0.0
    ensures v.sampleRate == 0 ==> d == 0.0
    ensures v.sampleRate > 0 ==> d * v.sampleRate as real == |v.samples| as real
  {
    if v.sampleRate != 0 then |v.samples| as real / v.sampleRate as real else 0.0
  }

  // ---------------------------------------------------------------------
  // Marker

  /** `setMarkerPosition`: the position is clamped into [0, duration]; the
      state changes only when the clamped value differs. */
  function SetMarkerPosition(v: View, seconds: real): (r: View)
    ensures r == v.(marker := r.marker)
    ensures 0.0 <= r.marker <= Duration(v)
    ensures 0.0 <= seconds <= Duration(v) ==> r.marker == seconds
    ensures seconds < 0.0 ==> r.marker == 0.0
    ensures Duration(v) < seconds ==> r.marker == Duration(v)
  {
    var newMarker := Bound(0.0, seconds, Duration(v));
    if newMarker != v.marker then v.(marker := newMarker) else v
  }

  /** Setting the marker twice to the same time is the same as once, and a
      marker already in range is not moved by setting it to itself. */
  lemma MarkerIdempotent(v: View, seconds: real)
    ensures SetMarkerPosition(SetMarkerPosition(v, seconds), seconds) == SetMarkerPosition(v, seconds)
    ensures 0.0 <= v.marker <= Duration(v) ==> SetMarkerPosition(v, v.marker) == v
  {
  }

  // ---------------------------------------------------------------------
  // Scroll range

  /** `updateScroll`: with no samples or no rate the range is [0, 0];
      otherwise the maximum is the signal's length in pixels at this zoom
      minus the width, at least 0.  The value is kept inside. */
  function UpdateScroll(v: View, w: int): (r: View)
    requires v.zoom > 0.0
    ensures r == v.(scroll := r.scroll, scrollMax := r.scrollMax)
    ensures 0 <= r.scroll <= r.scrollMax
    ensures v.samples == [] || v.sampleRate == 0 ==> r.scrollMax == 0
    ensures v.samples != [] && v.sampleRate != 0 ==>
      r.scrollMax == Max(0, Trunc(|v.samples| as real / v.zoom - w as real))
    ensures 0 <= v.scroll <= r.scrollMax ==> r.scroll == v.scroll
  {
    if v.samples == [] || v.sampleRate == 0 then v.(scroll := 0, scrollMax := 0)
    else
      var totalPx := |v.samples| as real / v.zoom;
      var maxScroll := Max(0, Trunc(totalPx - w as real));
      v.(scroll := IntBound(0, v.scroll, maxScroll), scrollMax := maxScroll)
  }

  /** `setSamples`: new samples and rate, marker 0, zoom 1, scroll 0, then
      the scroll range is recomputed. */
  function SetSamples(v: View, samples: seq<real>, sampleRate: nat, w: int): (r: View)
    ensures r.samples == samples && r.sampleRate == sampleRate
    ensures r.marker == 0.0 && r.zoom == 1.0 && r.scroll == 0
    ensures Valid(r)
  {
    UpdateScroll(View(samples, sampleRate, 0.0, 1.0, 0, v.scrollMax), w)
  }

  /** The user moves the scroll bar: the value lands inside its range. */
  function ScrollTo(v: View, value: int): (r: View)
    ensures r == v.(scroll := r.scroll)
    ensures 0 <= v.scrollMax ==> 0 <= r.scroll <= v.scrollMax
    ensures 0 <= value <= v.scrollMax ==> r.scroll == value
  {
    v.(scroll := IntBound(0, value, v.scrollMax))
  }

  // ---------------------------------------------------------------------
  // Ctrl-wheel zoom

  /** The scroll offset that keeps the sample under the cursor in place
      when the samples-per-pixel ratio changes from `sppOld` to `sppNew`. */
  function AnchorOffset(offset: int, cursorX: real, sppOld: real, sppNew: real): (o: real)
    requires sppNew != 0.0
    ensures (o + cursorX) * sppNew == (offset as real + cursorX) * sppOld
  {
    var sampleIndex := (offset as real + cursorX) * sppOld;
    sampleIndex / sppNew - cursorX
  }

  lemma PositiveQuotient(a: real, b: real, c: real)
    requires a > 0.0 && b > 0.0 && c > 0.0
    ensures b * c > 0.0 && a / (b * c) > 0.0
  {
  }

  /** The zoom factor of one wheel notch: in for a forward notch, out for
      anything else. */
  function ZoomStep(angleY: int): real
  {
    if angleY > 0 then ZoomInStep else ZoomOutStep
  }

  /** The samples per pixel the wheel handler works with, `n / (zoom * w)`. */
  function WheelSpp(n: nat, zoom: real, w: int): (spp: real)
    requires n > 0 && zoom > 0.0 && w > 0
    ensures spp > 0.0
  {
    PositiveQuotient(n as real, zoom, w as real);
    n as real / (zoom * w as real)
  }

  /** `wheelEvent`: without Ctrl, with no width or with no samples nothing
      changes; otherwise one notch multiplies the zoom by 1.25 (up) or 0.8,
      clamped to [0.5, 100], and the scroll value is moved so that the
      sample under the cursor stays there, then kept inside the new range. */
  function Wheel(v: View, ctrl: bool, angleY: int, cursorX: real, w: int): (r: View)
    requires v.zoom > 0.0
    ensures !ctrl || w <= 0 || v.samples == [] ==> r == v
    ensures ctrl && w > 0 && v.samples != [] ==>
      && r.samples == v.samples && r.sampleRate == v.sampleRate && r.marker == v.marker
      && r.zoom == Bound(MinZoom, v.zoom * ZoomStep(angleY), MaxZoom)
      && MinZoom <= r.zoom <= MaxZoom
      && 0 <= r.scroll <= r.scrollMax
      && r.scrollMax == UpdateScroll(v.(zoom := r.zoom), w).scrollMax
      && r.scroll == IntBound(0, Trunc(AnchorOffset(v.scroll, cursorX,
                                                    WheelSpp(|v.samples|, v.zoom, w),
                                                    WheelSpp(|v.samples|, r.zoom, w))), r.scrollMax)
    ensures ctrl && w > 0 && v.samples != [] && MinZoom <= v.zoom <= MaxZoom ==>
      (angleY > 0 ==> v.zoom <= r.zoom) && (angleY <= 0 ==> r.zoom <= v.zoom)
  {
    if !ctrl || w <= 0 || v.samples == [] then v
    else
      var sppOld := WheelSpp(|v.samples|, v.zoom, w);
      var zoom := Bound(MinZoom, v.zoom * ZoomStep(angleY), MaxZoom);
      var sppNew := WheelSpp(|v.samples|, zoom, w);
      var newOffset := AnchorOffset(v.scroll, cursorX, sppOld, sppNew);
      var rescaled := UpdateScroll(v.(zoom := zoom), w);
      ScrollTo(rescaled, Trunc(newOffset))
  }

  // ---------------------------------------------------------------------
  // Marker from a mouse position

  datatype MarkerUpdate = MarkerUpdate(view: View, emitted: Option<real>)

  /** The time under pixel `x`: the sample at scroll offset plus `x`
      columns of `n / zoom / w` samples each, over the sample rate. */
  function PixelTime(v: View, x: int, w: int): (t: real)
    requires v.zoom > 0.0 && w > 0 && v.sampleRate != 0
    ensures t * v.sampleRate as real == (v.scroll + x) as real * (|v.samples| as real / v.zoom / w as real)
  {
    var spp := (|v.samples| as real / v.zoom) / w as real;
    ((v.scroll + x) as real * spp) / v.sampleRate as real
  }

  /** `updateMarkerFromPos`: nothing happens with no width or no rate;
      otherwise the time under pixel `x` goes through `setMarkerPosition`
      and the resulting marker is emitted (even when it did not change). */
  function UpdateMarkerFromPos(v: View, x: int, w: int): (u: MarkerUpdate)
    requires v.zoom > 0.0
    ensures w <= 0 || v.sampleRate == 0 ==> u == MarkerUpdate(v, None)
    ensures w > 0 && v.sampleRate != 0 ==>
      && u.view == v.(marker := u.view.marker)
      && 0.0 <= u.view.marker <= Duration(v)
      && u.emitted == Some(u.view.marker)
      && u.view == SetMarkerPosition(v, PixelTime(v, x, w))
  {
    if w <= 0 || v.sampleRate == 0 then MarkerUpdate(v, None)
    else
      var r := SetMarkerPosition(v, PixelTime(v, x, w));
      MarkerUpdate(r, Some(r.marker))
  }

  // ---------------------------------------------------------------------
  // The envelope

  /** No outline, the per-column maxima and minima, or a read of column 0
      of a column array that is empty. */
  datatype Outline = NoOutline | Columns(maxVals: seq<real>, minVals: seq<real>) | ReadPastColumns

  /** The samples column `x` covers, clamped so that it is never empty and
      stays inside the signal. */
  datatype Bucket = Bucket(start: int, end: int)

  function ColumnBucket(x: int, offset: int, spp: real, n: nat): (b: Bucket)
    requires n >= 1
    ensures 0 <= b.start < b.end <= n
  {
    var start := IntBound(0, Trunc((x + offset) as real * spp), n - 1);
    Bucket(start, IntBound(start + 1, Trunc((x + offset + 1) as real * spp), n))
  }

  /** `qMax` folded over a bucket from -1. */
  function Highest(s: seq<real>): (m: real)
    ensures m >= -1.0
    ensures forall i :: 0 <= i < |s| ==> s[i] <= m
    ensures m == -1.0 || exists i :: 0 <= i < |s| && s[i] == m
  {
    if s == [] then -1.0
    else
      var rest := Highest(s[..|s| - 1]);
      assert forall i :: 0 <= i < |s| - 1 ==> s[i] == s[..|s| - 1][i];
      if rest < s[|s| - 1] then s[|s| - 1] else rest
  }

  /** `qMin` folded over a bucket from 1. */
  function Lowest(s: seq<real>): (m: real)
    ensures m <= 1.0
    ensures forall i :: 0 <= i < |s| ==> m <= s[i]
    ensures m == 1.0 || exists i :: 0 <= i < |s| && s[i] == m
  {
    if s == [] then 1.0
    else
      var rest := Lowest(s[..|s| - 1]);
      assert forall i :: 0 <= i < |s| - 1 ==> s[i] == s[..|s| - 1][i];
      if s[|s| - 1] < rest then s[|s| - 1] else rest
  }

  /** The samples per pixel `updateCachedPath` uses. */
  function SamplesPerPixel(v: View, w: int): (spp: real)
    requires v.zoom > 0.0 && w > 0 && v.samples != []
    ensures spp > 0.0
  {
    PositiveQuotient(|v.samples| as real, v.zoom, 1.0);
    var perZoom := |v.samples| as real / v.zoom;
    PositiveQuotient(perZoom, w as real, 1.0);
    perZoom / w as real
  }

  /** `endX`: the number of columns to fill, the width cut down to the
      signal's pixels right of the scroll offset. */
  function EndColumn(v: View, w: int): int
    requires v.zoom > 0.0 && w > 0 && v.samples != []
  {
    var totalPx := Trunc(|v.samples| as real / SamplesPerPixel(v, w));
    Min(w, totalPx - v.scroll)
  }

  /** The min/max columns for `count` columns from the scroll offset. */
  function Fill(v: View, w: int, count: nat): (o: Outline)
    requires v.zoom > 0.0 && w > 0 && v.samples != [] && count > 0
    ensures o.Columns? && |o.maxVals| == count && |o.minVals| == count
    ensures forall x :: 0 <= x < count ==>
      var b := ColumnBucket(x, v.scroll, SamplesPerPixel(v, w), |v.samples|);
      && o.maxVals[x] >= -1.0 && o.minVals[x] <= 1.0 && o.minVals[x] <= o.maxVals[x]
      && (forall i :: b.start <= i < b.end ==> o.minVals[x] <= v.samples[i] <= o.maxVals[x])
  {
    var spp := SamplesPerPixel(v, w);
    var n := |v.samples|;
    var buckets := seq(count, x requires 0 <= x < count => ColumnBucket(x, v.scroll, spp, n));
    var o := Columns(
      seq(count, x requires 0 <= x < count => Highest(v.samples[buckets[x].start..buckets[x].end])),
      seq(count, x requires 0 <= x < count => Lowest(v.samples[buckets[x].start..buckets[x].end])));
    assert forall x, i :: 0 <= x < count && buckets[x].start <= i < buckets[x].end ==>
      v.samples[i] == v.samples[buckets[x].start..buckets[x].end][i - buckets[x].start];
    o
  }

  /** `updateCachedPath` as written: the outline is built from column 0
      whenever `endX` is not 0, also when it is negative and the column
      arrays are empty. */
  function Envelope(v: View, w: int, h: int): (o: Outline)
    requires v.zoom > 0.0
    ensures o.ReadPastColumns? <==> w > 0 && h > 0 && v.samples != [] && EndColumn(v, w) < 0
    ensures o.Columns? ==> w > 0 && h > 0 && v.samples != [] && |o.maxVals| == EndColumn(v, w) > 0
    ensures o.NoOutline? <==> w <= 0 || h <= 0 || v.samples == [] || EndColumn(v, w) == 0
    ensures w > 0 && h > 0 && v.samples != [] && EndColumn(v, w) > 0 ==> o == Fill(v, w, EndColumn(v, w))
  {
    if w <= 0 || h <= 0 || v.samples == [] then NoOutline
    else
      var endX := EndColumn(v, w);
      if endX == 0 then NoOutline
      else if endX < 0 then ReadPastColumns
      else Fill(v, w, endX)
  }

  /** The scroll range is measured in samples divided by the zoom, the
      column count in width times zoom: 300 samples in a 100-pixel widget
      allow scrolling to 150, where the column count is -50. */
  lemma ScrolledPastColumns()
    ensures var v := ScrollTo(SetSamples(Initial, seq(300, _ => 0.0), 1, 100), 150);
            Valid(v) && Envelope(v, 100, 50) == ReadPastColumns
  {
    var v0 := SetSamples(Initial, seq(300, _ => 0.0), 1, 100);
    assert v0.scrollMax == 200;
    var v := ScrollTo(v0, 150);
    assert v.scroll == 150;
    assert SamplesPerPixel(v, 100) == 3.0;
    assert EndColumn(v, 100) == -50;
  }

  /** Corrected: no outline unless there is at least one column. */
  function EnvelopeGuarded(v: View, w: int, h: int): (o: Outline)
    requires v.zoom > 0.0
    ensures !o.ReadPastColumns?
    ensures o.Columns? ==> w > 0 && h > 0 && v.samples != [] && |o.maxVals| == EndColumn(v, w) > 0
    ensures o.NoOutline? <==> w <= 0 || h <= 0 || v.samples == [] || EndColumn(v, w) <= 0
    ensures w > 0 && h > 0 && v.samples != [] && EndColumn(v, w) > 0 ==> o == Fill(v, w, EndColumn(v, w))
  {
    if w <= 0 || h <= 0 || v.samples == [] then NoOutline
    else
      var endX := EndColumn(v, w);
      if endX <= 0 then NoOutline
      else Fill(v, w, endX)
  }

  /** The guard changes nothing where the written version has columns or
      none, and turns the bad read into no outline. */
  lemma GuardAgrees(v: View, w: int, h: int)
    requires v.zoom > 0.0
    ensures Envelope(v, w, h).ReadPastColumns? ==> EnvelopeGuarded(v, w, h) == NoOutline
    ensures !Envelope(v, w, h).ReadPastColumns? ==> EnvelopeGuarded(v, w, h) == Envelope(v, w, h)
  {
  }

  /** Every handler keeps the state valid. */
  lemma HandlersKeepValid(v: View, samples: seq<real>, rate: nat, seconds: real,
                          value: int, ctrl: bool, angleY: int, cursorX: real, x: int, w: int)
    requires Valid(v)
    ensures Valid(SetSamples(v, samples, rate, w))
    ensures Valid(SetMarkerPosition(v, seconds))
    ensures Valid(UpdateScroll(v, w))
    ensures Valid(ScrollTo(v, value))
    ensures Valid(Wheel(v, ctrl, angleY, cursorX, w))
    ensures Valid(UpdateMarkerFromPos(v, x, w).view)
  {
  }
}
