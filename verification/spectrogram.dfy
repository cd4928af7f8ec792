/**
  `SpectrogramView` (src/spectrogramview.cpp, and the copy with the same
  logic in spectrogramview.cpp): a bounded history of magnitude frames, the
  bin count fixed by the first slice, and the unscaled image `updateImage`
  builds from it, one column per frame and one row per bin with bin 0 at the
  bottom.  A frame shorter than the bin count makes `updateImage` read past
  its end; the model records the first such frame instead of an image.
 */
module Spectrogram {
  import opened Common

  /** `m_maxTimeSlices`. */
  const MaxTimeSlices: nat := 500

  /** `maxMagnitude` in `magnitudeToColor`. */
  const MaxMagnitude: real := 1.0

  datatype Rgb = Rgb(red: int, green: int, blue: int)

  /** The image: none yet, columns of pixels (column `x` is frame `x`, row 0
      is the top row), or the first frame that `updateImage` reads past. */
  datatype Image = NoImage | Pixels(columns: seq<seq<Rgb>>) | ReadPastFrame(frame: nat)

  /** `m_spectrogramData`, `m_freqBinCount` and `m_image`. */
  datatype View = View(history: seq<seq<real>>, binCount: nat, image: Image)

  const Initial: View := View([], 0, NoImage)

  /** The yellow scale: the magnitude clamped to [0, 1], scaled to 255 and
      truncated, on red and green; blue stays 0. */
  function MagnitudeToColor(m: real): (c: Rgb)
    ensures 0 <= c.red <= 255 && c.green == c.red && c.blue == 0
    ensures m <= 0.0 ==> c.red == 0
    ensures m >= MaxMagnitude ==> c.red == 255
    ensures 0.0 <= m <= MaxMagnitude ==> c.red as real <= m * 255.0 < c.red as real + 1.0
  {
    var norm := Bound(0.0, m / MaxMagnitude, 1.0);
    var intensity := Trunc(norm * 255.0);
    Rgb(intensity, intensity, 0)
  }

  /** A brighter magnitude never gets a darker colour. */
  lemma ColorMonotone(m1: real, m2: real)
    requires m1 <= m2
    ensures MagnitudeToColor(m1).red <= MagnitudeToColor(m2).red
  {
    var n1 := Bound(0.0, m1 / MaxMagnitude, 1.0);
    var n2 := Bound(0.0, m2 / MaxMagnitude, 1.0);
    assert n1 <= n2;
    TruncMonotone(n1 * 255.0, n2 * 255.0);
  }

  /** Pixel row of bin `y` in an image `height` rows tall. */
  function Row(height: nat, y: nat): int
  {
    height - 1 - y
  }

  /** The row flip is an involution on [0, height), so a bijection, and it
      puts bin 0 on the bottom row. */
  lemma RowFlip(height: nat, y: nat)
    requires y < height
    ensures 0 <= Row(height, y) < height
    ensures Row(height, Row(height, y) as nat) == y
    ensures y == 0 ==> Row(height, y) == height - 1
  {
  }

  /** Index of the first frame with fewer than `bins` entries, or `|h|`. */
  function FirstShort(h: seq<seq<real>>, bins: nat): (k: nat)
    ensures k <= |h|
    ensures forall x :: 0 <= x < k ==> |h[x]| >= bins
    ensures k < |h| ==> |h[k]| < bins
  {
    if h == [] then 0
    else if |h[0]| < bins then 0
    else 1 + FirstShort(h[1..], bins)
  }

  /** One image column: row `r` shows bin `bins - 1 - r` of the frame. */
  function Column(frame: seq<real>, bins: nat): (col: seq<Rgb>)
    requires bins <= |frame|
    ensures |col| == bins
  {
    seq(bins, r requires 0 <= r < bins => MagnitudeToColor(frame[bins - 1 - r]))
  }

  /** The pixel loop of `updateImage` over a non-empty history. */
  function Render(h: seq<seq<real>>, bins: nat): (img: Image)
    requires h != [] && bins > 0
    ensures img.Pixels? <==> forall x :: 0 <= x < |h| ==> |h[x]| >= bins
    ensures img.ReadPastFrame? ==> img.frame < |h| && |h[img.frame]| < bins
    ensures img.ReadPastFrame? ==> forall x :: 0 <= x < img.frame ==> |h[x]| >= bins
    ensures img.Pixels? ==> |img.columns| == |h|
    ensures img.Pixels? ==> forall x, y :: 0 <= x < |h| && 0 <= y < bins ==>
      |img.columns[x]| == bins && img.columns[x][Row(bins, y)] == MagnitudeToColor(h[x][y])
    ensures !img.NoImage?
  {
    var k := FirstShort(h, bins);
    if k < |h| then ReadPastFrame(k)
    else
      var img := Pixels(seq(|h|, x requires 0 <= x < |h| => Column(h[x], bins)));
      assert forall x, y :: 0 <= x < |h| && 0 <= y < bins ==>
        img.columns[x][Row(bins, y)] == MagnitudeToColor(h[x][bins - 1 - Row(bins, y)]);
      img
  }

  /** `updateImage`: nothing happens while the history is empty or the bin
      count is 0 (the previous image stays). */
  function UpdateImage(v: View): (r: View)
    ensures r.history == v.history && r.binCount == v.binCount
    ensures v.history == [] || v.binCount == 0 ==> r == v
    ensures v.history != [] && v.binCount > 0 ==> r.image == Render(v.history, v.binCount)
  {
    if v.history == [] || v.binCount == 0 then v
    else v.(image := Render(v.history, v.binCount))
  }

  /** Whether `addSpectrumSlice` takes the slice. */
  predicate Accepts(v: View, freqBins: seq<real>, mags: seq<real>)
  {
    |freqBins| == |mags| && (v.binCount == 0 || |freqBins| == v.binCount)
  }

  /** Append, then drop the oldest frame if the history is over the limit. */
  function Push(h: seq<seq<real>>, frame: seq<real>): (r: seq<seq<real>>)
    ensures |r| == Min(|h| + 1, Max(|h|, MaxTimeSlices))
    ensures r != [] && r[|r| - 1] == frame
    ensures r == h + [frame] || r == (h + [frame])[1..]
    ensures |h| < MaxTimeSlices ==> r == h + [frame]
  {
    var appended := h + [frame];
    if |appended| > MaxTimeSlices then appended[1..] else appended
  }

  /** `addSpectrumSlice`. */
  function AddSpectrumSlice(v: View, freqBins: seq<real>, mags: seq<real>): (r: View)
    ensures !Accepts(v, freqBins, mags) ==> r == v
    ensures Accepts(v, freqBins, mags) ==>
      r.binCount == |mags| && r.history == Push(v.history, mags)
    ensures Accepts(v, freqBins, mags) && r.binCount > 0 ==> r.image == Render(r.history, r.binCount)
    ensures Accepts(v, freqBins, mags) && r.binCount == 0 ==> r.image == v.image
  {
    if |freqBins| != |mags| then v
    else
      var bins := if v.binCount == 0 then |freqBins| else v.binCount;
      if |freqBins| != bins then v
      else UpdateImage(View(Push(v.history, mags), bins, v.image))
  }

  /** A history within the limit stays within it, and no slice makes the
      history longer than the larger of its old length and the limit. */
  lemma SliceKeepsBound(v: View, freqBins: seq<real>, mags: seq<real>)
    ensures |AddSpectrumSlice(v, freqBins, mags).history| <= Max(|v.history|, MaxTimeSlices)
    ensures |v.history| <= MaxTimeSlices ==> |AddSpectrumSlice(v, freqBins, mags).history| <= MaxTimeSlices
  {
  }

  /** `setSpectrogramData`: the history is replaced and the bin count taken
      from the first frame alone. */
  function SetSpectrogramData(v: View, data: seq<seq<real>>): (r: View)
    ensures r.history == data
    ensures r.binCount == (if data == [] then 0 else |data[0]|)
    ensures data == [] || |data[0]| == 0 ==> r.image == v.image
    ensures data != [] && |data[0]| > 0 ==> r.image == Render(data, |data[0]|)
  {
    UpdateImage(View(data, if data == [] then 0 else |data[0]|, v.image))
  }

  /** `clear`: history and image go, the bin count stays. */
  function Clear(v: View): (r: View)
    ensures r.history == [] && r.image == NoImage && r.binCount == v.binCount
  {
    View([], v.binCount, NoImage)
  }

  /** After `clear` a slice of another length than the old bin count is
      still refused. */
  lemma ClearKeepsBinCount(v: View, freqBins: seq<real>, mags: seq<real>)
    requires v.binCount != 0 && |freqBins| == |mags| && |mags| != v.binCount
    ensures AddSpectrumSlice(Clear(v), freqBins, mags) == Clear(v)
  {
  }

  // ---------------------------------------------------------------------
  // When the image can be built

  /** Every frame has exactly the bin count. */
  predicate Uniform(v: View)
  {
    forall x :: 0 <= x < |v.history| ==> |v.history[x]| == v.binCount
  }

  /** The state `addSpectrumSlice` is meant to keep: uniform frames, and no
      frames at all while the bin count is still open. */
  predicate Good(v: View)
  {
    Uniform(v) && (v.binCount == 0 ==> v.history == []) && !v.image.ReadPastFrame?
  }

  lemma PushUniform(h: seq<seq<real>>, frame: seq<real>, bins: nat)
    requires forall x :: 0 <= x < |h| ==> |h[x]| == bins
    requires |frame| == bins
    ensures forall x :: 0 <= x < |Push(h, frame)| ==> |Push(h, frame)[x]| == bins
  {
    var a := h + [frame];
    assert forall x :: 0 <= x < |a| ==> |a[x]| == bins;
    if |a| > MaxTimeSlices {
      forall x | 0 <= x < |a[1..]| ensures |a[1..][x]| == bins {
        assert a[1..][x] == a[x + 1];
      }
    }
  }

  /** Data whose frames all have the first frame's (non-zero) length. */
  predicate Rectangular(data: seq<seq<real>>)
  {
    data != [] ==> |data[0]| > 0 && forall x :: 0 <= x < |data| ==> |data[x]| == |data[0]|
  }

  /** `setSpectrogramData` leaves a good state exactly for rectangular data
      (given that no failed image was carried over). */
  lemma SetDataGood(v: View, data: seq<seq<real>>)
    requires !v.image.ReadPastFrame?
    ensures Good(SetSpectrogramData(v, data)) <==> Rectangular(data)
  {
    var r := SetSpectrogramData(v, data);
    if data != [] && |data[0]| > 0 {
      if !Rectangular(data) {
        var x :| 0 <= x < |data| && |data[x]| != |data[0]|;
        assert !Uniform(r);
      }
    } else if data != [] {
      assert r.binCount == 0 && r.history != [];
    }
  }

  lemma ClearGood(v: View)
    ensures Good(Clear(v))
  {
  }

  // ---------------------------------------------------------------------
  // An empty slice opens the way to reading past a frame

  /** As written: an empty slice is taken while the bin count is 0 and stays
      in the history as an empty frame; the next slice fixes the bin count
      and `updateImage` reads past the empty frame. */
  lemma EmptySliceThenReadPastFrame()
    ensures AddSpectrumSlice(AddSpectrumSlice(Initial, [], []), [440.0], [0.5]).image == ReadPastFrame(0)
  {
    var v1 := AddSpectrumSlice(Initial, [], []);
    assert v1.history == [[]] && v1.binCount == 0;
    var v2 := AddSpectrumSlice(v1, [440.0], [0.5]);
    assert v2.history == [[], [0.5]] && v2.binCount == 1;
    assert FirstShort(v2.history, 1) == 0;
  }

  /** Corrected: an empty slice is refused like any other slice that does
      not fit, which keeps every frame as long as the bin count. */
  function AddSpectrumSliceChecked(v: View, freqBins: seq<real>, mags: seq<real>): (r: View)
    ensures |mags| == 0 ==> r == v
    ensures |mags| > 0 ==> r == AddSpectrumSlice(v, freqBins, mags)
  {
    if |mags| == 0 then v else AddSpectrumSlice(v, freqBins, mags)
  }

  /** The corrected slice never leads to a read past a frame: the good state
      is kept by every slice. */
  lemma CheckedSliceKeepsGood(v: View, freqBins: seq<real>, mags: seq<real>)
    requires Good(v)
    ensures Good(AddSpectrumSliceChecked(v, freqBins, mags))
  {
    if |mags| > 0 && Accepts(v, freqBins, mags) {
      var bins := |mags|;
      PushUniform(v.history, mags, bins);
      var r := AddSpectrumSlice(v, freqBins, mags);
      assert r.binCount == bins;
      assert r.image == Render(r.history, bins);
    }
  }
}
