# Audio analyzer core in Dafny

This project models the computational core of a small Qt audio analyzer.

The first part is the WAV decoder, `AudioModel::loadWav`. It turns the bytes of a RIFF/WAVE file into metadata and one normalised mono sample per frame. The model is the pure function `Wav.Decode`, and `Wav.LoadWavEvents` gives the ordered list of Qt signals one call emits. The decoder follows the code rather than the RIFF/WAVE standard (chapters 2 and 3 of *Multimedia Programming Interface and Data Specifications 1.0*):
- the RIFF size field is never checked;
- chunks are skipped by their declared size, with no pad byte;
- a `fmt ` chunk always has 16 bytes consumed from it;
- a missing `fmt ` and a non-PCM format give the same error;
- a `data` chunk placed before `fmt ` is never found;
- a `data` chunk of size 0 counts as missing;
- bit depths other than 8 and 16 decode to silence.

A chunk writer (`WavLayout`) serves as an independent reference. Over it, `WavTheorems` proves the decoder's round trips: write a `fmt ` chunk and PCM values, decode, and get back the metadata and the reference downmix of the written values. `WavQuirks` proves each departure from the standard over whole files.

The second part is the view state of the widgets. Each widget is a record with pure update functions over `real` and `int`:
- **`Spectrogram`**: the bounded spectrogram history, with the bin count fixed by the first slice, the row flip and the colour scale. Its logic is in src/spectrogramview.cpp and again, differing only in layout and comments, in spectrogramview.cpp; the table cites the first copy and names the matching lines of the second.
- **`SpectrumPlot`**: the hand-drawn spectrum, covering clamped points, the visible window, and the wheel, drag and rubber-band zoom (src/spectrumview.cpp).
- **`SpectrumChart`**: the chart spectrum's axis ranges (spectrumview.cpp).
- **`Waveform`**: the waveform's marker, zoom, scroll bar and per-pixel min/max envelope (waveformview.cpp).
- **`Grid`**: the grid widget's change-only marker and its column-to-sample index mapping (gridwidget.cpp).

Modelling conventions:
- `qBound(lo, v, hi)` is `Common.Bound`, i.e. `qMax(lo, qMin(hi, v))`.
- A C++ `double`-to-`int` cast is `Common.Trunc`, which rounds toward zero.
- A `QScrollBar` keeps its value inside its range.
- Division by zero in the source becomes an explicit outcome:
  - `Duration.Infinite` and `Error.ZeroFrameSize` in the decoder;
  - `None` from `SpectrumPlot.VisibleWindow`, `Drag` and `ApplyZoom`;
  - `Grid.MarkerColumn.DivideByZero`.

## Model

| member | source | states |
|---|---|---|
| Bytes.EncodeU16 | audiomodel.cpp:24 | a 16-bit field written in little-endian order reads back as the same `quint16` |
| Bytes.EncodeU32 | audiomodel.cpp:24 | a 32-bit field written in little-endian order reads back as the same `quint32` |
| Bytes.EncodeI16 | audiomodel.cpp:107-108 | a signed 16-bit sample written in two's complement reads back as the same `qint16` |
| Bytes.I16 | audiomodel.cpp:107-108 | a `qint16` sample lies in [-32768, 32768) and is negative exactly when the high byte's top bit is set |
| Wav.ScanFor | audiomodel.cpp:42-60 | a chunk the scan reports found starts with the id sought, and its size is the little-endian 32-bit field after the id |
| Wav.ParseFmt | audiomodel.cpp:49-53 | each `fmt ` field fits the width it is read with: 16 bits for format, channels and depth, 32 bits for the two rates |
| Wav.AfterFmt | audiomodel.cpp:54-56 | the `data` scan starts exactly 16 bytes into the `fmt ` body when the declared size is 16 or less, and at the body's declared end otherwise |
| Wav.ParseHeader | audiomodel.cpp:26-89 | the not-a-WAV error comes exactly when the first four bytes are present and are not "RIFF", or a complete 12-byte header lacks the RIFF or WAVE tag; success means a PCM `fmt ` followed by a non-empty `data` chunk, with fields read from those chunks |
| Wav.MetaOf | audiomodel.cpp:91-93 | duration times byte rate is the data size (infinite for a zero byte rate); the bit rate is 8 times the byte rate modulo 2^32; the other fields are copied from `fmt ` |
| Wav.BitRate | audiomodel.cpp:92 | the `quint32` product `byteRate * 8`: below 2^32, a multiple of 8, congruent to 8 times the byte rate modulo 2^32, and exact when it fits |
| Wav.ChannelValue | audiomodel.cpp:105-116 | an 8- or 16-bit channel sample contributes a value in the signed 16-bit range, an 8-bit one a multiple of 256 (re-centred and scaled up), and any other depth contributes 0 |
| Wav.FrameSum | audiomodel.cpp:103-117 | a frame's channel sum lies within the channel count times the 16-bit range, and is 0 for unsupported depths |
| Wav.Downmix | audiomodel.cpp:119 | the sample is the frame sum over `channels * 32768`, with the same sign as the sum |
| Wav.DownmixRange | audiomodel.cpp:103-120 | an 8- or 16-bit frame downmixes into [-1, 1) |
| Wav.DecodeFrames | audiomodel.cpp:102-121 | exactly `count` samples, each in [-1, 1) for 8- and 16-bit data and 0 for other depths |
| Wav.DecodeBody | audiomodel.cpp:91-121 | the sample count is `dataSize / (channels * bytesPerSample)`; a zero frame size is an error; metadata comes first |
| Wav.Decode | audiomodel.cpp:14-129 | the whole decoder: tag errors, the metadata, the sample count and the sample range |
| Wav.LoadWavEvents | audiomodel.cpp:85-126 | a success emits metadata, then the waveform with the sample rate, then an empty spectrum; a reported error emits only that error |
| WavLayout.ScanSerialized | audiomodel.cpp:42-60 | run over written chunks, the scan stops at the first chunk carrying the id sought, or at the end |
| WavLayout.FmtRoundTrip | audiomodel.cpp:49-53 | written `fmt ` fields read back unchanged at any offset |
| WavTheorems.FrameSumIsSum | audiomodel.cpp:102-117 | the frame loop sums exactly the channel values written for that frame |
| WavTheorems.HeaderOfLayout | audiomodel.cpp:39-89 | in a written file the header is the first `fmt ` chunk and the first `data` chunk after it, with the written fields and data size |
| WavTheorems.RoundTrip16 | audiomodel.cpp:91-121 | decoding a written 16-bit file gives its metadata and the reference downmix of the written values, whatever the other chunks and the RIFF size |
| WavTheorems.RoundTrip8 | audiomodel.cpp:110-113 | the same round trip for 8-bit files |
| WavQuirks.RiffSizeIgnored | audiomodel.cpp:27-37 | two files differing only in the RIFF size field decode alike and emit the same signals |
| WavQuirks.AnyRiffSize | audiomodel.cpp:29-30 | any RIFF size written in front of the same chunks decodes alike |
| WavQuirks.MissingFmtIsNotPcm | audiomodel.cpp:40-66 | a file without a `fmt ` chunk fails with the PCM-only error, because the format starts out as 0 |
| WavQuirks.NonPcmRejected | audiomodel.cpp:62-66 | any format code other than 1 fails with the PCM-only error |
| WavQuirks.DataBeforeFmtIsMissed | audiomodel.cpp:68-89 | a `data` chunk in front of `fmt ` is never found, giving the no-data error |
| WavQuirks.EmptyDataIsMissing | audiomodel.cpp:77-89 | a first `data` chunk of size 0 gives the no-data error, even when a later one has data |
| Spectrogram.MagnitudeToColor | src/spectrogramview.cpp:113-121 | the colour is (i, i, 0) with i in [0, 255]; i is 0 at or below 0, 255 at or above 1, and `floor(m * 255)` in between; the copy at spectrogramview.cpp:99-107 is identical |
| Spectrogram.ColorMonotone | src/spectrogramview.cpp:113-121 | a larger magnitude never gives a darker colour |
| Spectrogram.RowFlip | src/spectrogramview.cpp:99-105 | the row mapping `height - 1 - y` stays inside the image, is its own inverse, and puts bin 0 on the bottom row |
| Spectrogram.Render | src/spectrogramview.cpp:93-106 | the image can be built exactly when every frame has at least the bin count of entries; then pixel (x, row of y) shows bin y of frame x; otherwise the first frame shorter than the bin count is reported, every frame before it being long enough; the copy at spectrogramview.cpp:82-94 is identical |
| Spectrogram.UpdateImage | src/spectrogramview.cpp:88-110 | with no history or no bin count the old image stays; otherwise the image is rendered from the history |
| Spectrogram.Push | src/spectrogramview.cpp:32-34 | the new frame is last, and the oldest frame is dropped only when the history would exceed 500 frames |
| Spectrogram.AddSpectrumSlice | src/spectrogramview.cpp:15-38 | a length mismatch, or a slice that does not match a fixed bin count, changes nothing; otherwise the first slice fixes the bin count and the slice is pushed; the copy at spectrogramview.cpp:13-33 is identical |
| Spectrogram.SliceKeepsBound | src/spectrogramview.cpp:32-34 | a history of at most 500 frames stays so, and none grows past the larger of its length and 500; the copy at spectrogramview.cpp:26-29 is identical |
| Spectrogram.SetSpectrogramData | src/spectrogramview.cpp:41-50 | the history is replaced and the bin count is the first frame's length, or 0; for a non-empty first frame the image is re-rendered from the new data, otherwise the old image stays; the copy at spectrogramview.cpp:35-44 is identical |
| Spectrogram.Clear | src/spectrogramview.cpp:52-59 | history and image are emptied and the bin count is kept; the copy at spectrogramview.cpp:46-53 is identical |
| Spectrogram.ClearKeepsBinCount | src/spectrogramview.cpp:25-29 | after a clear, a slice of a length other than the old bin count is still refused |
| Spectrogram.SetDataGood | src/spectrogramview.cpp:41-50 | replacing the data leaves every frame readable by the image loop exactly when all frames share the first frame's non-zero length |
| Spectrogram.EmptySliceThenReadPastFrame | src/spectrogramview.cpp:21-36 | an empty slice followed by a one-bin slice makes the image loop read past the empty frame |
| Spectrogram.AddSpectrumSliceChecked | src/spectrogramview.cpp:21-29 | corrected slice handling: an empty slice is refused, anything else is handled as written |
| Spectrogram.CheckedSliceKeepsGood | src/spectrogramview.cpp:21-36 | with the corrected handling all frames keep the bin count and the image loop never reads past a frame |
| SpectrumPlot.SetSpectrumData | src/spectrumview.cpp:60-77 | unequal lengths change nothing; otherwise the points are the input pairs in order, with each magnitude clamped into [minDB, maxDB] |
| SpectrumPlot.SetSpectrumDataIdempotent | src/spectrumview.cpp:72 | handing the stored points back in stores them unchanged |
| SpectrumPlot.Clear | src/spectrumview.cpp:79-84 | only the points are emptied |
| SpectrumPlot.ClearThenData | src/spectrumview.cpp:66-74 | new data replaces the points wholesale, so a clear before it makes no difference |
| SpectrumPlot.SetFrequencyRange | src/spectrumview.cpp:46-51 | only the frequency bounds change |
| SpectrumPlot.SetDecibelRange | src/spectrumview.cpp:53-58 | only the decibel bounds change |
| SpectrumPlot.VisibleWindow | src/spectrumview.cpp:30-44 | the window is `(maxF - minF) / zoom` wide and centred on `(minF + maxF) / 2 + pan`; there is none at zoom 0 |
| SpectrumPlot.ZoomReset | src/spectrumview.cpp:86-91 | zoom 1 and pan 0, nothing else changes, and the window is exactly [minF, maxF] |
| SpectrumPlot.InitialWindow | spectrumView.h:45-50 | the initial plot shows exactly 20 Hz to 20 kHz |
| SpectrumPlot.ClampPan | src/spectrumview.cpp:143-144 | the pan ends in ±`R(zoom - 1)/2`: a pan already inside is kept, and one outside goes to the nearer edge |
| SpectrumPlot.Wheel | src/spectrumview.cpp:164-174 | the zoom becomes `qBound(1, zoom * 1.1, 100)` for a forward notch and `qBound(1, zoom * 0.9, 100)` otherwise, so it ends in [1, 100]; from a zoom in that range it goes up on a forward notch and down otherwise; for a non-negative range the pan ends within ±`R(zoom - 1)/2`; at zoom 1 the pan is 0; a pan already within the new limit is kept, and one outside it goes to the nearer edge of the new limit; nothing else changes |
| SpectrumPlot.WheelKeepsCentre | src/spectrumview.cpp:164-174 | unless the clamp moves the pan, a wheel notch keeps the window's midpoint and scales its width by the inverse of the zoom change |
| SpectrumPlot.Drag | src/spectrumview.cpp:134-146 | only the pan changes; it moves to the target `pan - (dx / width) * R / zoom` when that lies within ±`R(zoom - 1)/2`, and otherwise to the nearer edge; at zoom 0 the shift divides by zero |
| SpectrumPlot.DragTarget | src/spectrumview.cpp:138-140 | the pan a drag asks for differs from the current one by `dx / width` of the visible width `R / zoom`, against the mouse |
| SpectrumPlot.DragShiftsWindow | src/spectrumview.cpp:138-140 | where the clamp does not bite, dragging `dx` pixels moves the window by `dx / width` of its own width, against the mouse |
| SpectrumPlot.ApplyZoom | src/spectrumview.cpp:358-362 | the zoom times the selected width is the full range; equal ends divide by zero |
| SpectrumPlot.ApplyZoomShowsSelection | src/spectrumview.cpp:344-365 | after a rubber-band zoom the window is exactly the selected frequencies |
| SpectrumPlot.ApplyZoomPassesLimit | src/spectrumview.cpp:361 | the rubber-band zoom is not clamped: 1 Hz of the initial range gives zoom 19980 |
| SpectrumPlot.PanLeavesRange | src/spectrumview.cpp:143-144 | one zoom-in notch and a full-width drag show frequencies above `maxF` |
| SpectrumPlot.InsideLimitExact | src/spectrumview.cpp:30-44 | the window lies inside [minF, maxF] exactly when the pan is within ±`(R - R/zoom)/2` |
| SpectrumPlot.WheelInside | src/spectrumview.cpp:164-171 | corrected wheel handler: the same zoom, with the pan within the corrected limit |
| SpectrumPlot.DragInside | src/spectrumview.cpp:138-144 | corrected drag: the pan moves to the same target when it lies within the corrected limit `(R - R/zoom)/2`, and otherwise to the nearer edge of that limit |
| SpectrumPlot.CorrectedPanStaysInside | src/spectrumview.cpp:143-144 | with the corrected limit, every wheel notch and every drag keeps the window inside [minF, maxF] |
| SpectrumChart.EnsureNonZeroRange | spectrumview.cpp:26-32 | a range with different bounds is unchanged; a flat one is widened by the padding on each side; the midpoint is kept |
| SpectrumChart.NonZeroRangeProper | spectrumview.cpp:26-32 | with a positive padding the result is a proper range, and widening it again changes nothing |
| SpectrumChart.SeqMax | spectrumview.cpp:54-55 | the upper Y bound is an amplitude and is at least every amplitude |
| SpectrumChart.SeqMin | spectrumview.cpp:54-55 | the lower Y bound before raising is an amplitude and is at most every amplitude |
| SpectrumChart.YBounds | spectrumview.cpp:54-56 | the upper Y bound is the greatest amplitude; the lower one is the least amplitude, or 0 when that is negative |
| SpectrumChart.SetSpectrum | spectrumview.cpp:34-59 | with fewer than two pairs nothing is plotted and both axes are [0, 1]; otherwise exactly `min(|freq|, |amp|)` pairs are plotted in order |
| SpectrumChart.SetSpectrumNeverWidens | spectrumview.cpp:49-58 | as written the axes are always the raw bounds: first and last frequency, and the raised least and the greatest amplitude |
| SpectrumChart.FlatAxisStaysFlat | spectrumview.cpp:49-51 | two equal frequencies give the flat X range [5, 5] |
| SpectrumChart.NegativeAmplitudesInvertAxis | spectrumview.cpp:54-58 | when every amplitude is negative the Y range's lower bound lies above its upper bound |
| SpectrumChart.SetSpectrumPadded | spectrumview.h:55 | corrected range computation: a flat X or Y range `[a, a]` becomes `[a - 1, a + 1]`, the declared default padding of 1, and any other range is the raw bounds; the series is unchanged |
| SpectrumChart.PaddedAxesProper | spectrumview.cpp:49-58 | the corrected X range is never flat, and is proper for ascending frequencies; the Y range is proper whenever its bounds are ordered; non-flat X and Y ranges match the written version |
| Waveform.InitialValid | waveformview.h:42-47 | the initial state has its zoom within [0.5, 100] and its scroll value inside the scroll range |
| Waveform.Duration | waveformview.cpp:36 | the duration times the rate is the sample count, or 0 without a rate |
| Waveform.SetMarkerPosition | waveformview.cpp:34-44 | the marker ends in [0, duration], equals the request when that is in range, and nothing else changes |
| Waveform.MarkerIdempotent | waveformview.cpp:39-43 | setting the same time twice is the same as once, and an in-range marker set to itself changes nothing |
| Waveform.UpdateScroll | waveformview.cpp:155-169 | with no samples or no rate the range is [0, 0]; otherwise the maximum is `max(0, int(n/zoom - w))`; the value stays inside and is kept when already inside |
| Waveform.SetSamples | waveformview.cpp:20-31 | the samples and rate are stored, with marker 0, zoom 1 and scroll 0, in a valid state |
| Waveform.ScrollTo | waveformview.cpp:13-16 | a scroll bar move lands inside the range, exactly where asked when that is in range |
| Waveform.AnchorOffset | waveformview.cpp:129-141 | the new scroll offset keeps the sample under the cursor under the cursor |
| Waveform.Wheel | waveformview.cpp:121-152 | without Ctrl, width or samples nothing changes; otherwise the zoom becomes `qBound(0.5, zoom * 1.25, 100)` for a forward notch and `qBound(0.5, zoom * 0.8, 100)` otherwise; the scroll value is the cursor-anchored offset of `AnchorOffset`, truncated and clamped into the recomputed range; samples, rate and marker are kept |
| Waveform.PixelTime | waveformview.cpp:178-180 | the time under pixel `x`, times the sample rate, is the sample index `(offset + x) * n / zoom / w` |
| Waveform.UpdateMarkerFromPos | waveformview.cpp:172-184 | with no width or rate nothing happens and nothing is emitted; otherwise the marker is set, through `setMarkerPosition`, to the time under pixel `x` (the time whose sample index is `(offset + x) * n / zoom / w`), and its new value is emitted |
| Waveform.ColumnBucket | waveformview.cpp:209-212 | each column's bucket is non-empty and inside the samples |
| Waveform.Highest | waveformview.cpp:204-218 | a column maximum is at least -1 and at least every sample of its bucket |
| Waveform.Lowest | waveformview.cpp:205-218 | a column minimum is at most 1 and at most every sample of its bucket |
| Waveform.Fill | waveformview.cpp:204-219 | for every column, minimum ≤ every bucket sample ≤ maximum, so minimum ≤ maximum |
| Waveform.Envelope | waveformview.cpp:187-224 | no outline exactly when the width, height or samples are missing or `endX` is 0; a positive `endX` gives the per-column min/max of `endX` columns; a negative `endX` reads column 0 of an empty array |
| Waveform.ScrolledPastColumns | waveformview.cpp:201-224 | 300 samples in a 100-pixel widget, scrolled to 150, give `endX = -50` and the read of an empty column array |
| Waveform.EnvelopeGuarded | waveformview.cpp:221 | corrected envelope: no outline exactly when there is no column to fill, the same min/max columns otherwise, so it never reads past the arrays |
| Waveform.GuardAgrees | waveformview.cpp:221 | the corrected envelope equals the written one except where that one reads past the arrays |
| Waveform.HandlersKeepValid | waveformview.cpp:20-184 | every handler keeps the zoom in [0.5, 100] and the scroll value inside its range |
| Grid.SetSamples | gridwidget.cpp:11-16 | samples and rate are replaced; the marker stays |
| Grid.SetMarkerPosition | gridwidget.cpp:18-25 | the marker becomes the new value, which is signalled exactly when it differs from the old one |
| Grid.MarkerRepeatSilent | gridwidget.cpp:20 | setting the same position again changes nothing and signals nothing |
| Grid.Wrap32 | gridwidget.cpp:58-59 | the `int` product wraps into [-2^31, 2^31) and is exact when it fits |
| Grid.CDiv | gridwidget.cpp:58-59 | integer division rounds toward zero: floor division for a non-negative dividend, and for a negative one the multiple of the divisor in [a, a + d) |
| Grid.Trace | gridwidget.cpp:48-65 | nothing is traced without samples; otherwise either all `w - 1` columns are traced, each with its index pair inside the samples, or the first column whose pair reads outside is reported, every column before it reading inside |
| Grid.TraceInBounds | gridwidget.cpp:57-62 | while `(w - 1) * n` fits in an `int`, every column reads inside the samples |
| Grid.LongSignalOverflows | gridwidget.cpp:58-59 | 13 230 000 samples in 800 pixels give a negative index at column 163, so column 162, which draws to column 163, is the first to read outside the samples |
| Grid.TraceWide | gridwidget.cpp:57-62 | corrected trace with a 64-bit product; a successful trace has all `w - 1` columns, each pair inside the samples |
| Grid.WideTraceInBounds | gridwidget.cpp:57-62 | with a 64-bit product every column of any `int` width reads inside any vector, in non-decreasing order |
| Grid.MarkerX | gridwidget.cpp:69-71 | the marker is hidden unless position and rate are positive; with no samples the position is divided by a zero duration; otherwise the column is `int(marker * rate / n * width)`, and within the duration it lies in [0, width] |

## Left out

- File opening and QDataStream plumbing are not modelled. The model starts from the file's bytes. A fixed-size read that would run past the end (the 12-byte header, a chunk size field, the 16 `fmt ` bytes, a sample) ends in `Error.Truncated` with the signals emitted so far. The source carries on instead: a number read past the end is 0, and a tag or chunk id read past the end keeps whatever bytes the array already held, so its outcome is not determined by the file. The first tag is the exception. Whenever the file has 4 bytes it is read in full, so a wrong first tag gives the not-a-WAV error in both the source and the model.
- No FFT, spectrum or spectrogram computation exists in the source; the decoder emits an empty spectrum, and so does the model.
- Painting is not modelled: `paintEvent`, the grid and label drawing, gradients, the scaled `QImage`, the `QPainterPath` built from the envelope arrays, and the QtCharts series and axis objects. The spectrogram image is modelled unscaled, as the pixel loop fills it.
- The log-scale mapping is not modelled. This covers `applyZoom`, `dataToPoint` and `pointToData`, which use `log10` and `pow`. `SpectrumPlot.ApplyZoom` receives the two frequencies the rubber band selects.
- The `y` values of the grid's wave and the waveform marker's pixel position are painting and are not modelled.
- The main window's wiring to the media player, slider, file dialog and message boxes is left out.
- Mutex locking is left out: every operation is sequential.
- Floating-point rounding is left out: `double` is `real`, and `qFuzzyCompare` is treated as exact comparison.
- Overflow of a `double`-to-`int` conversion is not modelled, nor is overflow of the `int` sum `offset + x` in `updateMarkerFromPos`.
- Widget sizes are parameters. The waveform's cached path and its cache keys are not state: the outline is a function of the state.
- Mouse press and release bookkeeping is left out: the rubber band, the dragging flags and the cursor shape.
- `Spectrogram.Render`: the image loop itself can never fail on a frame longer than the bin count, and extra entries are ignored, as in the source.
- `Waveform.UpdateScroll`, `Waveform.Wheel`, `Waveform.UpdateMarkerFromPos`, `Waveform.PixelTime` and `Waveform.Envelope` require a positive zoom. Every handler keeps the zoom in [0.5, 100] (`Waveform.HandlersKeepValid`), so no reachable state has another.
- `SpectrumPlot.Drag` and `SpectrumPlot.DragTarget` require a positive width; the widget's minimum width is 400 pixels (src/spectrumview.cpp:14).
- `WavTheorems.RoundTrip16` and `WavTheorems.RoundTrip8` cover files whose writer adds no RIFF pad byte. The decoder skips no pad byte either, so a padded odd-sized chunk in front of `data` derails its scan; this is not modelled as a separate case.
- `Wav.LoadWavEvents`: for the model's own `Truncated` and `ZeroFrameSize` outcomes the list holds the signals emitted up to that point.

## Findings

| source | as written | input that shows it | evidently intended | confidence | as-written member | corrected member |
|---|---|---|---|---|---|---|
| spectrumview.cpp:49-58 | the padding passed to `ensureNonZeroRange` is `(max - min) * 0.05`, which is 0 exactly when `min == max`, so a flat range is never widened | `setSpectrum([5, 5], [1, 2])` gives the X range [5, 5] | a flat range is widened by a non-zero padding, e.g. the declared default of 1 | high, not executed | SpectrumChart.SetSpectrumNeverWidens | SpectrumChart.SetSpectrumPadded |
| waveformview.cpp:201-224 | the scroll range is measured as `n / zoom - w` pixels, but the column count as `w * zoom - offset`; the guard only tests `endX == 0`, so a negative `endX` reads `maxVals[0]` of an empty vector | 300 samples at rate 1, width 100, zoom 1, scroll moved to 150: `endX = -50` | no outline when there is no column to fill | high, not executed | Waveform.ScrolledPastColumns | Waveform.EnvelopeGuarded |
| src/spectrogramview.cpp:21-36 | an empty slice is accepted while the bin count is 0 and stays in the history; the next slice fixes the bin count and the image loop reads past the empty frame (also spectrogramview.cpp:17-31) | `addSpectrumSlice([], [])` then `addSpectrumSlice([440], [0.5])` | every stored frame has the bin count of entries | medium, not executed | Spectrogram.EmptySliceThenReadPastFrame | Spectrogram.AddSpectrumSliceChecked |
| gridwidget.cpp:58-59 | `x * sampleCount` is computed in a 32-bit `int` and overflows for long signals, giving a negative index | 13 230 000 samples (5 minutes at 44.1 kHz) in an 800-pixel widget: the index of column 163 is negative, so column 162 is the first to read outside | an index inside the samples for every column | high, not executed | Grid.LongSignalOverflows | Grid.TraceWide |
| src/spectrumview.cpp:143-144 | the pan limit `R * (zoom - 1) / 2` exceeds the room the window has, `(R - R / zoom) / 2`, so the window can leave [minF, maxF] | initial plot, one zoom-in notch, then a drag of -400 pixels in a 400-pixel widget: the window ends above 20 090 Hz | the pan keeps the visible window inside the frequency range | medium, not executed | SpectrumPlot.PanLeavesRange | SpectrumPlot.WheelInside |
