/**
  `AudioModel::loadWav` (audiomodel.cpp) as a pure function of the file's
  bytes: the RIFF/WAVE container check, the two chunk scans, the `fmt `
  fields, the metadata and the downmix of 8- and 16-bit PCM frames into one
  normalised mono sample per frame.  The Qt signals the member emits become
  an ordered list of events.

  The decoder follows the code, not the RIFF standard: the RIFF size field
  is never checked, a `fmt ` chunk always has 16 bytes consumed from it,
  chunks are skipped by their declared size with no pad byte, and unsupported
  bit depths give silent frames.  Reads that the source performs through a
  QDataStream past the end of the file end here in `Truncated` (except the
  first tag, which is complete in any file of four bytes or more), and the
  unguarded integer division by a zero frame size ends in `ZeroFrameSize`.
 */
module Wav {
  import opened Common
  import opened Bytes

  /** Chunk identifiers, as ASCII bytes. */
  const RiffId: seq<byte> := [0x52, 0x49, 0x46, 0x46]   // "RIFF"
  const WaveId: seq<byte> := [0x57, 0x41, 0x56, 0x45]   // "WAVE"
  const FmtId: seq<byte> := [0x66, 0x6D, 0x74, 0x20]    // "fmt "
  const DataId: seq<byte> := [0x64, 0x61, 0x74, 0x61]   // "data"

  /** WAVE_FORMAT_PCM, the only `audioFormat` accepted. */
  const PcmFormat: nat := 1

  /** Length of the `fmt ` fields the decoder reads. */
  const FmtFieldsSize: nat := 16

  /** Full-scale reference both sample widths are normalised by. */
  const FullScale: real := 32768.0

  /** `dataSize / byteRate` in double arithmetic: a zero byte rate gives
      positive infinity, since the data size is known to be positive. */
  datatype Duration = Seconds(value: real) | Infinite

  /** `AudioModel::Meta`. */
  datatype Meta = Meta(
    durationSeconds: Duration,
    sampleRate: nat,
    byteRate: nat,
    channels: nat,
    bitsPerSample: nat,
    bitRate: nat)

  /** The three failures the source reports, and two the model adds where
      the source reads past the end of the file or divides by zero. */
  datatype Error =
    | NotWav          // "RIFF" / "WAVE" tags missing
    | NotPcm          // audioFormat != 1, including "no fmt chunk at all"
    | NoDataChunk     // no "data" chunk, or one of declared size 0
    | Truncated       // a fixed-size field read runs past the end
    | ZeroFrameSize   // numChannels * (bitsPerSample / 8) == 0

  /** The `fmt ` fields in the order they are read. */
  datatype Fmt = Fmt(
    audioFormat: nat,
    channels: nat,
    sampleRate: nat,
    byteRate: nat,
    blockAlign: nat,
    bitsPerSample: nat)

  /** Everything the two scans establish: the `fmt ` fields, where their
      body starts, and the size and start of the `data` body. */
  datatype Header = Header(fmt: Fmt, fmtBody: nat, dataSize: nat, dataStart: nat)

  datatype Decoded = Decoded(meta: Meta, samples: seq<real>)

  /** The signals `loadWav` emits, in emission order. */
  datatype Event =
    | ErrorOccurred(error: Error)
    | MetadataReady(meta: Meta)
    | WaveformReady(samples: seq<real>, sampleRate: nat)
    | SpectrumReady(frequencies: seq<real>, amplitudes: seq<real>)

  /** Outcome of one chunk scan: the body offset and declared size of the
      chunk found, the end of the file, or a size field cut short. */
  datatype Scan = Found(body: nat, size: nat) | Exhausted | ShortHeader

  /** The scan loop: read a 4-byte id and a 32-bit size; stop on a match,
      otherwise seek past the body by exactly the declared size. */
  function ScanFor(b: seq<byte>, pos: nat, id: seq<byte>): (r: Scan)
    ensures r.Found? ==> pos + 8 <= r.body <= |b|
    ensures r.Found? ==> b[r.body - 8..r.body - 4] == id && r.size == U32(b, r.body - 4)
    decreases |b| - pos
  {
    if |b| < pos + 4 then Exhausted
    else if |b| < pos + 8 then ShortHeader
    else if b[pos..pos + 4] == id then Found(pos + 8, U32(b, pos + 4))
    else ScanFor(b, pos + 8 + U32(b, pos + 4), id)
  }

  /** The six `fmt ` fields, little-endian, starting at `p`. */
  function ParseFmt(b: seq<byte>, p: nat): (f: Fmt)
    requires p + FmtFieldsSize <= |b|
    ensures f.audioFormat < U16Limit && f.channels < U16Limit && f.bitsPerSample < U16Limit
    ensures f.sampleRate < U32Limit && f.byteRate < U32Limit
  {
    Fmt(U16(b, p), U16(b, p + 2), U32(b, p + 4), U32(b, p + 8), U16(b, p + 12), U16(b, p + 14))
  }

  predicate HasTags(b: seq<byte>)
  {
    12 <= |b| && b[..4] == RiffId && b[8..12] == WaveId
  }

  /** The container check rejects the file: its first four bytes, which the
      tag read fills whenever the file has them, are not "RIFF", or a
      complete 12-byte header lacks one of the two tags. */
  predicate RejectsTags(b: seq<byte>)
  {
    (4 <= |b| && b[..4] != RiffId) || (12 <= |b| && !HasTags(b))
  }

  /** Where the `data` scan starts: 16 bytes are always read from the `fmt `
      body, and only a declared size above 16 skips further. */
  function AfterFmt(body: nat, size: nat): (p: nat)
    ensures p >= body + FmtFieldsSize
    ensures size >= FmtFieldsSize ==> p == body + size
    ensures size <= FmtFieldsSize ==> p == body + FmtFieldsSize
  {
    body + Max(FmtFieldsSize, size)
  }

  /** The container check and both scans. */
  function ParseHeader(b: seq<byte>): (r: Result<Header, Error>)
    ensures r == Err(NotWav) <==> RejectsTags(b)
    ensures r.Ok? ==> HasTags(b)
    ensures r.Ok? ==> r.value.fmt.audioFormat == PcmFormat && r.value.dataSize > 0
    ensures r.Ok? ==> 20 <= r.value.fmtBody && r.value.fmtBody + FmtFieldsSize + 8 <= r.value.dataStart <= |b|
    ensures r.Ok? ==> b[r.value.fmtBody - 8..r.value.fmtBody - 4] == FmtId
    ensures r.Ok? ==> r.value.fmt == ParseFmt(b, r.value.fmtBody)
    ensures r.Ok? ==> b[r.value.dataStart - 8..r.value.dataStart - 4] == DataId
    ensures r.Ok? ==> r.value.dataSize == U32(b, r.value.dataStart - 4)
  {
    if 4 <= |b| && b[..4] != RiffId then Err(NotWav)
    else if |b| < 12 then Err(Truncated)
    else if !HasTags(b) then Err(NotWav)
    else
      match ScanFor(b, 12, FmtId)
      case ShortHeader => Err(Truncated)
      case Exhausted => Err(NotPcm)
      case Found(body, size) =>
        if |b| < body + FmtFieldsSize then Err(Truncated)
        else
          var f := ParseFmt(b, body);
          if f.audioFormat != PcmFormat then Err(NotPcm)
          else
            match ScanFor(b, AfterFmt(body, size), DataId)
            case ShortHeader => Err(Truncated)
            case Exhausted => Err(NoDataChunk)
            case Found(dataStart, dataSize) =>
              if dataSize == 0 then Err(NoDataChunk)
              else Ok(Header(f, body, dataSize, dataStart))
  }

  /** The metadata, from the `fmt ` fields and the `data` size. */
  function MetaOf(h: Header): (m: Meta)
    requires h.dataSize > 0
    requires h.fmt.byteRate < U32Limit
    ensures m.durationSeconds.Seconds? <==> h.fmt.byteRate > 0
    ensures m.durationSeconds.Seconds? ==>
      m.durationSeconds.value * h.fmt.byteRate as real == h.dataSize as real
    ensures m.bitRate < U32Limit
    ensures m.bitRate % 8 == 0
    ensures 8 * h.fmt.byteRate < U32Limit ==> m.bitRate == 8 * h.fmt.byteRate
    ensures (8 * h.fmt.byteRate - m.bitRate) % U32Limit == 0
    ensures m.sampleRate == h.fmt.sampleRate && m.byteRate == h.fmt.byteRate
    ensures m.channels == h.fmt.channels && m.bitsPerSample == h.fmt.bitsPerSample
  {
    var duration :=
      if h.fmt.byteRate == 0 then Infinite
      else Seconds(h.dataSize as real / h.fmt.byteRate as real);
    Meta(duration, h.fmt.sampleRate, h.fmt.byteRate, h.fmt.channels, h.fmt.bitsPerSample,
         BitRate(h.fmt.byteRate))
  }

  /** `byteRate * 8` in quint32 arithmetic: the product wraps modulo 2^32. */
  function BitRate(byteRate: nat): (r: nat)
    requires byteRate < U32Limit
    ensures r < U32Limit && r % 8 == 0
    ensures 8 * byteRate < U32Limit ==> r == 8 * byteRate
    ensures (8 * byteRate - r) % U32Limit == 0
  {
    var r := (byteRate * 8) % U32Limit;
    assert r % 8 == 0 by {
      var q := byteRate / (U32Limit / 8);
      assert byteRate * 8 == U32Limit * q + (byteRate % (U32Limit / 8)) * 8;
    }
    r
  }

  /** Bit depths with a decoding branch. */
  predicate IsPcmDepth(bits: nat) { bits == 8 || bits == 16 }

  /** `numChannels * bytesPerSample`: bytes per interleaved frame. */
  function FrameBytes(f: Fmt): nat { f.channels * (f.bitsPerSample / 8) }

  /** The bytes one channel sample reads are in the file. */
  predicate Readable(b: seq<byte>, p: nat, bits: nat)
  {
    (bits == 16 ==> p + 2 <= |b|) && (bits == 8 ==> p + 1 <= |b|)
  }

  /** What one channel sample adds to the frame sum: a signed 16-bit value,
      an unsigned byte re-centred by `(b - 128) * 256`, or nothing for any
      other depth (whose bytes are skipped). */
  function ChannelValue(b: seq<byte>, p: nat, bits: nat): (v: int)
    requires Readable(b, p, bits)
    ensures IsPcmDepth(bits) ==> -0x8000 <= v < 0x8000
    ensures bits == 8 ==> v % 256 == 0
    ensures !IsPcmDepth(bits) ==> v == 0
  {
    if bits == 16 then I16(b, p)
    else if bits == 8 then (b[p] as int - 128) * 256
    else 0
  }

  /** The sum over the first `channels` samples of the frame at `p`. */
  function FrameSum(b: seq<byte>, p: nat, channels: nat, bits: nat): (s: int)
    requires IsPcmDepth(bits) ==> p + channels * (bits / 8) <= |b|
    ensures IsPcmDepth(bits) ==> -0x8000 * channels <= s <= 0x7FFF * channels
    ensures !IsPcmDepth(bits) ==> s == 0
    decreases channels
  {
    if channels == 0 then 0
    else
      var last := p + (channels - 1) * (bits / 8);
      FrameSum(b, p, channels - 1, bits) + ChannelValue(b, last, bits)
  }

  /** `sampleSum / (numChannels * 32768.0)`: the mean channel value on the
      full-scale range. */
  function Downmix(sum: int, channels: nat): (x: real)
    requires channels > 0
    ensures x * (channels as real * FullScale) == sum as real
    ensures sum == 0 <==> x == 0.0
    ensures sum < 0 <==> x < 0.0
  {
    sum as real / (channels as real * FullScale)
  }

  /** A frame of in-range channel samples lands in [-1, 1). */
  lemma DownmixRange(sum: int, channels: nat)
    requires channels > 0
    requires -0x8000 * channels <= sum <= 0x7FFF * channels
    ensures -1.0 <= Downmix(sum, channels) < 1.0
  {
    var d := channels as real * FullScale;
    var x := Downmix(sum, channels);
    assert x * d == sum as real;
    assert -d <= sum as real < d;
    assert (x + 1.0) * d == sum as real + d >= 0.0;
    assert (1.0 - x) * d == d - sum as real > 0.0;
  }

  lemma FrameFits(i: nat, count: nat, fb: nat)
    requires i < count
    ensures i * fb + fb <= count * fb
  {
    assert (i + 1) * fb <= count * fb;
  }

  /** Frame `i` of the data, downmixed. */
  function FrameSample(b: seq<byte>, start: nat, f: Fmt, count: nat, i: nat): (x: real)
    requires f.channels > 0 && i < count
    requires IsPcmDepth(f.bitsPerSample) ==> start + count * FrameBytes(f) <= |b|
    ensures IsPcmDepth(f.bitsPerSample) ==> -1.0 <= x < 1.0
    ensures !IsPcmDepth(f.bitsPerSample) ==> x == 0.0
  {
    FrameFits(i, count, FrameBytes(f));
    var sum := FrameSum(b, start + i * FrameBytes(f), f.channels, f.bitsPerSample);
    if IsPcmDepth(f.bitsPerSample) then DownmixRange(sum, f.channels); Downmix(sum, f.channels)
    else Downmix(sum, f.channels)
  }

  /** The per-frame loop: `count` frames read back to back from `start`. */
  function DecodeFrames(b: seq<byte>, start: nat, f: Fmt, count: nat): (s: seq<real>)
    requires f.channels > 0
    requires IsPcmDepth(f.bitsPerSample) ==> start + count * FrameBytes(f) <= |b|
    ensures |s| == count
    ensures IsPcmDepth(f.bitsPerSample) ==> forall i :: 0 <= i < count ==> -1.0 <= s[i] < 1.0
    ensures !IsPcmDepth(f.bitsPerSample) ==> forall i :: 0 <= i < count ==> s[i] == 0.0
  {
    seq(count, i requires 0 <= i < count => FrameSample(b, start, f, count, i))
  }

  /** Metadata first, then the frames (lines 91-121). */
  function DecodeBody(b: seq<byte>, h: Header): (r: Result<Decoded, Error>)
    requires h.dataSize > 0 && h.fmt.byteRate < U32Limit
    ensures r.Ok? ==> r.value.meta == MetaOf(h)
    ensures r.Ok? <==> (FrameBytes(h.fmt) > 0 &&
      (IsPcmDepth(h.fmt.bitsPerSample) ==> h.dataStart + h.dataSize / FrameBytes(h.fmt) * FrameBytes(h.fmt) <= |b|))
    ensures r.Ok? ==> |r.value.samples| == h.dataSize / FrameBytes(h.fmt)
    ensures r.Err? ==> r.error == ZeroFrameSize || r.error == Truncated
    ensures r == Err(ZeroFrameSize) <==> FrameBytes(h.fmt) == 0
  {
    var fb := FrameBytes(h.fmt);
    if fb == 0 then Err(ZeroFrameSize)
    else
      var count := h.dataSize / fb;
      if IsPcmDepth(h.fmt.bitsPerSample) && |b| < h.dataStart + count * fb then Err(Truncated)
      else Ok(Decoded(MetaOf(h), DecodeFrames(b, h.dataStart, h.fmt, count)))
  }

  /** `loadWav` without the file I/O: the metadata and the mono samples, or
      the reason decoding stopped. */
  function Decode(b: seq<byte>): (r: Result<Decoded, Error>)
    ensures r == Err(NotWav) <==> RejectsTags(b)
    ensures r.Ok? ==> ParseHeader(b).Ok? && r.value.meta == MetaOf(ParseHeader(b).value)
    ensures r.Ok? ==>
      (FrameBytes(ParseHeader(b).value.fmt) > 0 &&
       |r.value.samples| == ParseHeader(b).value.dataSize / FrameBytes(ParseHeader(b).value.fmt))
    ensures r.Ok? && IsPcmDepth(r.value.meta.bitsPerSample) ==>
      forall i :: 0 <= i < |r.value.samples| ==> -1.0 <= r.value.samples[i] < 1.0
    ensures r.Ok? && !IsPcmDepth(r.value.meta.bitsPerSample) ==>
      forall i :: 0 <= i < |r.value.samples| ==> r.value.samples[i] == 0.0
  {
    match ParseHeader(b)
    case Err(e) => Err(e)
    case Ok(h) => DecodeBody(b, h)
  }

  /** The signals emitted by one `loadWav` call.  Where the model stops with
      an error of its own, the list holds what was emitted up to that point. */
  function LoadWavEvents(b: seq<byte>): (events: seq<Event>)
    ensures Decode(b).Ok? ==> events == [
      MetadataReady(Decode(b).value.meta),
      WaveformReady(Decode(b).value.samples, Decode(b).value.meta.sampleRate),
      SpectrumReady([], [])]
    ensures Decode(b).Err? && Decode(b).error in {NotWav, NotPcm, NoDataChunk} ==>
      events == [ErrorOccurred(Decode(b).error)]
    ensures ParseHeader(b).Ok? && Decode(b).Err? ==>
      events == [MetadataReady(MetaOf(ParseHeader(b).value))]
  {
    match ParseHeader(b)
    case Err(e) => if e == Truncated then [] else [ErrorOccurred(e)]
    case Ok(h) =>
      var m := MetaOf(h);
      match DecodeBody(b, h)
      case Err(_) => [MetadataReady(m)]
      case Ok(d) => [MetadataReady(m), WaveformReady(d.samples, h.fmt.sampleRate), SpectrumReady([], [])]
  }
}
