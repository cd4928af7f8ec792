/**
  What `loadWav` does with whole files: files written chunk by chunk with
  `WavLayout` decode to the metadata and the downmixed frames they were
  written from, and the source's quirks (the RIFF size never read, a missing
  `fmt ` chunk reported as non-PCM, a `data` chunk before `fmt ` never found,
  an empty `data` chunk reported as missing) hold for every such file.
 */
module WavTheorems {
  import opened Common
  import opened Bytes
  import opened Wav
  import opened WavLayout

  // ---------------------------------------------------------------------
  // Arithmetic facts about frames

  lemma MulAddRight(x: nat, y: nat, m: nat)
    ensures (x + y) * m == x * m + y * m
  {
  }

  lemma MulMonoRight(x: nat, y: nat, m: nat)
    requires x <= y
    ensures x * m <= y * m
  {
  }

  lemma MulAssoc(x: nat, y: nat, z: nat)
    ensures x * (y * z) == (x * y) * z
  {
  }

  lemma DivMulLe(n: nat, d: nat)
    requires d > 0
    ensures (n / d) * d <= n
  {
  }

  lemma MulAtLeast(d: int, m: int)
    requires d > 0 && m >= 1
    ensures d * m >= d
  {
  }

  lemma MulSub(d: int, x: int, y: int)
    ensures d * x - d * y == d * (x - y)
  {
  }

  /** Euclidean division has only one quotient. */
  lemma DivUnique(a: int, d: int, q: int, r: int)
    requires 0 < d && 0 <= r < d && a == d * q + r
    ensures a / d == q
  {
    var q' := a / d;
    var r' := a % d;
    assert a == d * q' + r' && 0 <= r' < d;
    MulSub(d, q, q');
    MulSub(d, q', q);
    if q' < q {
      MulAtLeast(d, q - q');
    } else if q < q' {
      MulAtLeast(d, q' - q);
    }
  }

  /** Sizes counted in 2-byte units divide like sizes counted in samples. */
  lemma DivTwice(n: nat, d: nat)
    requires d > 0
    ensures (n * 2) / (d * 2) == n / d
  {
    var q := n / d;
    var r := n % d;
    assert n == d * q + r;
    assert n * 2 == (d * 2) * q + r * 2;
    DivUnique(n * 2, d * 2, q, r * 2);
  }

  // ---------------------------------------------------------------------
  // Reference downmix over channel values

  function Sum(s: seq<int>): int
  {
    if s == [] then 0 else Sum(s[..|s| - 1]) + s[|s| - 1]
  }

  /** Frame `i` of interleaved `vals` with `c` channels, downmixed. */
  function MixFrame(vals: seq<int>, c: nat, i: nat): real
    requires c > 0 && i < |vals| / c
  {
    DivMulLe(|vals|, c);
    FrameFits(i, |vals| / c, c);
    Downmix(Sum(vals[i * c..i * c + c]), c)
  }

  /** Independent statement of the downmix: whole frames of interleaved
      channel values, each frame averaged over the full-scale range; a
      trailing partial frame is dropped. */
  function MonoMix(vals: seq<int>, c: nat): (r: seq<real>)
    requires c > 0
    ensures |r| == |vals| / c
  {
    seq(|vals| / c, i requires 0 <= i < |vals| / c => MixFrame(vals, c, i))
  }

  /** Channel `k` of the data region holds `vals[k]`. */
  predicate Carries(b: seq<byte>, start: nat, bits: nat, vals: seq<int>)
  {
    && IsPcmDepth(bits)
    && start + |vals| * (bits / 8) <= |b|
    && forall k :: 0 <= k < |vals| ==>
         Readable(b, start + k * (bits / 8), bits) && ChannelValue(b, start + k * (bits / 8), bits) == vals[k]
  }

  /** The sum of the first `j` channels read from channel `base` on is the
      sum of the values written there. */
  lemma {:induction false} FrameSumIsSum(b: seq<byte>, start: nat, bits: nat, vals: seq<int>, base: nat, j: nat)
    requires Carries(b, start, bits, vals)
    requires base + j <= |vals|
    ensures start + base * (bits / 8) + j * (bits / 8) <= |b|
    ensures FrameSum(b, start + base * (bits / 8), j, bits) == Sum(vals[base..base + j])
    decreases j
  {
    if j == 0 {
      MulMonoRight(base, |vals|, bits / 8);
    } else {
      FrameSumIsSum(b, start, bits, vals, base, j - 1);
      CarriesAt(b, start, bits, vals, base + (j - 1));
      FrameSumStep(b, start, bits, vals, base, j);
    }
  }

  /** One more channel: the inductive step of `FrameSumIsSum`. */
  lemma FrameSumStep(b: seq<byte>, start: nat, bits: nat, vals: seq<int>, base: nat, j: nat)
    requires IsPcmDepth(bits) && start + |vals| * (bits / 8) <= |b|
    requires 0 < j && base + j <= |vals|
    requires Readable(b, start + (base + (j - 1)) * (bits / 8), bits)
    requires ChannelValue(b, start + (base + (j - 1)) * (bits / 8), bits) == vals[base + (j - 1)]
    requires start + base * (bits / 8) + (j - 1) * (bits / 8) <= |b|
    requires FrameSum(b, start + base * (bits / 8), j - 1, bits) == Sum(vals[base..base + (j - 1)])
    ensures start + base * (bits / 8) + j * (bits / 8) <= |b|
    ensures FrameSum(b, start + base * (bits / 8), j, bits) == Sum(vals[base..base + j])
  {
    StepOffsets(start, base, j, bits / 8, |vals|, |b|);
    FrameSumLast(b, start + base * (bits / 8), j, bits);
    SumSnoc(vals, base, j);
  }

  /** The offsets of channel `base + j - 1` and of the end of channel
      `base + j - 1` inside a data region of `n` channels. */
  lemma StepOffsets(start: nat, base: nat, j: nat, bps: nat, n: nat, len: nat)
    requires 0 < j && base + j <= n && start + n * bps <= len
    ensures start + base * bps + j * bps <= len
    ensures start + base * bps + (j - 1) * bps == start + (base + (j - 1)) * bps
  {
    MulAddRight(base, j, bps);
    MulMonoRight(base + j, n, bps);
    MulAddRight(base, j - 1, bps);
  }

  /** The value channel `k` carries. */
  lemma CarriesAt(b: seq<byte>, start: nat, bits: nat, vals: seq<int>, k: nat)
    requires Carries(b, start, bits, vals) && k < |vals|
    ensures Readable(b, start + k * (bits / 8), bits)
    ensures ChannelValue(b, start + k * (bits / 8), bits) == vals[k]
  {
  }

  /** Unfolds the frame sum by its last channel. */
  lemma FrameSumLast(b: seq<byte>, p: nat, j: nat, bits: nat)
    requires 0 < j && (IsPcmDepth(bits) ==> p + j * (bits / 8) <= |b|)
    ensures IsPcmDepth(bits) ==> p + (j - 1) * (bits / 8) + (bits / 8) <= |b|
    ensures FrameSum(b, p, j, bits) == FrameSum(b, p, j - 1, bits) + ChannelValue(b, p + (j - 1) * (bits / 8), bits)
  {
  }

  lemma SumSnoc(vals: seq<int>, base: nat, j: nat)
    requires 0 < j && base + j <= |vals|
    ensures Sum(vals[base..base + j]) == Sum(vals[base..base + (j - 1)]) + vals[base + (j - 1)]
  {
    assert vals[base..base + j][..j - 1] == vals[base..base + (j - 1)];
  }

  lemma FrameMatches(b: seq<byte>, start: nat, f: Fmt, vals: seq<int>, count: nat, i: nat)
    requires f.channels > 0 && Carries(b, start, f.bitsPerSample, vals)
    requires count == |vals| / f.channels && i < count
    requires start + count * FrameBytes(f) <= |b|
    ensures FrameSample(b, start, f, count, i) == MixFrame(vals, f.channels, i)
  {
    var c := f.channels;
    DivMulLe(|vals|, c);
    FrameFits(i, count, c);
    MulAssoc(i, c, f.bitsPerSample / 8);
    FrameSumIsSum(b, start, f.bitsPerSample, vals, i * c, c);
  }

  /** The decoder's frame loop computes the reference downmix of whatever
      channel values the data region carries. */
  lemma FramesMatch(b: seq<byte>, start: nat, f: Fmt, vals: seq<int>)
    requires f.channels > 0 && Carries(b, start, f.bitsPerSample, vals)
    ensures start + (|vals| / f.channels) * FrameBytes(f) <= |b|
    ensures DecodeFrames(b, start, f, |vals| / f.channels) == MonoMix(vals, f.channels)
  {
    var c := f.channels;
    var bps := f.bitsPerSample / 8;
    var count := |vals| / c;
    DivMulLe(|vals|, c);
    MulAssoc(count, c, bps);
    MulMonoRight(count * c, |vals|, bps);
    var d := DecodeFrames(b, start, f, count);
    var m := MonoMix(vals, c);
    forall i | 0 <= i < count ensures d[i] == m[i] {
      FrameMatches(b, start, f, vals, count, i);
    }
  }

  // ---------------------------------------------------------------------
  // PCM writers

  predicate Pcm16Values(vals: seq<int>)
  {
    forall k :: 0 <= k < |vals| ==> -0x8000 <= vals[k] < 0x8000
  }

  /** Interleaved signed 16-bit little-endian samples. */
  function EncodePcm16(vals: seq<int>): (r: seq<byte>)
    requires Pcm16Values(vals)
    ensures |r| == 2 * |vals|
  {
    seq(2 * |vals|, j requires 0 <= j < 2 * |vals| => EncodeI16(vals[j / 2])[j % 2])
  }

  /** The values an unsigned 8-bit sample can contribute: `(b - 128) * 256`. */
  predicate Pcm8Values(vals: seq<int>)
  {
    forall k :: 0 <= k < |vals| ==> -0x8000 <= vals[k] < 0x8000 && vals[k] % 256 == 0
  }

  /** Unsigned 8-bit samples, re-centred at 128. */
  function EncodePcm8(vals: seq<int>): (r: seq<byte>)
    requires Pcm8Values(vals)
    ensures |r| == |vals|
  {
    seq(|vals|, k requires 0 <= k < |vals| => (vals[k] / 256 + 128) as byte)
  }

  lemma Pcm16Carries(b: seq<byte>, start: nat, vals: seq<int>)
    requires Pcm16Values(vals) && Placed(b, start, EncodePcm16(vals))
    ensures Carries(b, start, 16, vals)
  {
    var e := EncodePcm16(vals);
    forall k | 0 <= k < |vals|
      ensures Readable(b, start + k * 2, 16) && ChannelValue(b, start + k * 2, 16) == vals[k]
    {
      var w := EncodeI16(vals[k]);
      assert e[2 * k] == w[0] && e[2 * k + 1] == w[1];
      assert b[start + 2 * k] == w[0] && b[start + 2 * k + 1] == w[1];
    }
  }

  lemma Pcm8Carries(b: seq<byte>, start: nat, vals: seq<int>)
    requires Pcm8Values(vals) && Placed(b, start, EncodePcm8(vals))
    ensures Carries(b, start, 8, vals)
  {
    var e := EncodePcm8(vals);
    forall k | 0 <= k < |vals|
      ensures Readable(b, start + k * 1, 8) && ChannelValue(b, start + k * 1, 8) == vals[k]
    {
      assert b[start + k] == e[k];
    }
  }

  // ---------------------------------------------------------------------
  // Whole files

  function FmtChunk(f: Fmt, ext: seq<byte>): Chunk
    requires FmtFits(f)
  {
    Chunk(FmtId, EncodeFmt(f) + ext)
  }

  function DataChunk(pcm: seq<byte>): Chunk
  {
    Chunk(DataId, pcm)
  }

  /** Other chunks, then `fmt `, other chunks, `data`, and trailing chunks. */
  function Layout(pre: seq<Chunk>, fmt: Chunk, mid: seq<Chunk>, data: Chunk, post: seq<Chunk>): seq<Chunk>
  {
    pre + [fmt] + (mid + [data] + post)
  }

  /** The preconditions shared by the whole-file lemmas. */
  predicate Writable(riffSize: nat, pre: seq<Chunk>, f: Fmt, ext: seq<byte>, mid: seq<Chunk>, post: seq<Chunk>)
  {
    && riffSize < U32Limit && FmtFits(f) && FmtFieldsSize + |ext| < U32Limit
    && AllWellFormed(pre) && AllWellFormed(mid) && AllWellFormed(post)
  }

  lemma LayoutWellFormed(pre: seq<Chunk>, fmt: Chunk, mid: seq<Chunk>, data: Chunk, post: seq<Chunk>)
    requires AllWellFormed(pre) && AllWellFormed(mid) && AllWellFormed(post)
    requires WellFormed(fmt) && WellFormed(data)
    ensures AllWellFormed(mid + [data] + post)
    ensures AllWellFormed(Layout(pre, fmt, mid, data, post))
    ensures Serialize(mid + [data] + post) == Serialize(mid) + ChunkBytes(data) + Serialize(post)
    ensures Serialize(Layout(pre, fmt, mid, data, post))
         == Serialize(pre) + ChunkBytes(fmt) + Serialize(mid + [data] + post)
  {
    assert Serialize([fmt]) == ChunkBytes(fmt);
    assert Serialize([data]) == ChunkBytes(data);
    SerializeAppend(mid, [data]);
    SerializeAppend(mid + [data], post);
    SerializeAppend(pre, [fmt]);
    SerializeAppend(pre + [fmt], mid + [data] + post);
  }

  /** Offset of the `fmt ` body in a file with layout `pre`, `fmt `, ... */
  function FmtBodyAt(pre: seq<Chunk>): nat
    requires AllWellFormed(pre)
  {
    12 + |Serialize(pre)| + 8
  }

  /** Offset of the `data` body. */
  function DataBodyAt(pre: seq<Chunk>, fmt: Chunk, mid: seq<Chunk>): nat
    requires AllWellFormed(pre) && AllWellFormed(mid) && WellFormed(fmt)
  {
    12 + |Serialize(pre)| + 8 + |fmt.body| + |Serialize(mid)| + 8
  }

  /** The decoder's acceptance path: both scans succeed, the format is PCM
      and the `data` chunk is not empty. */
  lemma HeaderFound(b: seq<byte>, fmtBody: nat, fmtSize: nat, dataStart: nat, dataSize: nat)
    requires HasTags(b) && ScanFor(b, 12, FmtId) == Found(fmtBody, fmtSize)
    requires fmtBody + FmtFieldsSize <= |b| && ParseFmt(b, fmtBody).audioFormat == PcmFormat
    requires ScanFor(b, AfterFmt(fmtBody, fmtSize), DataId) == Found(dataStart, dataSize)
    requires dataSize > 0
    ensures ParseHeader(b) == Ok(Header(ParseFmt(b, fmtBody), fmtBody, dataSize, dataStart))
  {
  }

  /** The `fmt ` scan over a written file stops at the first `fmt ` chunk. */
  lemma FmtScanOfLayout(b: seq<byte>, pre: seq<Chunk>, fc: Chunk, tail: seq<Chunk>)
    requires AllWellFormed(pre) && WellFormed(fc) && fc.id == FmtId && Lacks(pre, FmtId)
    requires AllWellFormed(pre + [fc] + tail)
    requires Ends(b, 12, Serialize(pre + [fc] + tail))
    ensures ScanFor(b, 12, FmtId) == Found(FmtBodyAt(pre), |fc.body|)
  {
    ScanSerialized(b, 12, pre + [fc] + tail, FmtId);
    LocateFirst(pre, fc, tail, FmtId, 12);
  }

  /** The `fmt ` fields read back as written. */
  lemma FmtFieldsOfLayout(b: seq<byte>, pre: seq<Chunk>, f: Fmt, ext: seq<byte>, rest: seq<byte>)
    requires FmtFits(f) && FmtFieldsSize + |ext| < U32Limit && AllWellFormed(pre)
    requires Ends(b, 12, Serialize(pre) + ChunkBytes(FmtChunk(f, ext)) + rest)
    ensures FmtBodyAt(pre) + FmtFieldsSize <= |b| && ParseFmt(b, FmtBodyAt(pre)) == f
  {
    var fc := FmtChunk(f, ext);
    var sp := Serialize(pre);
    SplitEnds(b, 12, sp + ChunkBytes(fc), rest);
    SplitPlaced(b, 12, sp, ChunkBytes(fc));
    ChunkHeaderAt(b, 12 + |sp|, fc);
    SplitPlaced(b, FmtBodyAt(pre), EncodeFmt(f), ext);
    FmtRoundTrip(b, FmtBodyAt(pre), f);
  }

  /** The chunks behind `fmt ` start where the `data` scan starts. */
  lemma AfterFmtOfLayout(b: seq<byte>, pre: seq<Chunk>, fc: Chunk, rest: seq<byte>)
    requires AllWellFormed(pre) && WellFormed(fc) && |fc.body| >= FmtFieldsSize
    requires Ends(b, 12, Serialize(pre) + ChunkBytes(fc) + rest)
    ensures Ends(b, AfterFmt(FmtBodyAt(pre), |fc.body|), rest)
  {
    SplitEnds(b, 12, Serialize(pre) + ChunkBytes(fc), rest);
  }

  /** The `data` scan, started at a chunk boundary, stops at the first
      `data` chunk. */
  lemma DataScanOfLayout(b: seq<byte>, after: nat, mid: seq<Chunk>, dc: Chunk, post: seq<Chunk>)
    requires AllWellFormed(mid) && WellFormed(dc) && dc.id == DataId && Lacks(mid, DataId)
    requires AllWellFormed(mid + [dc] + post)
    requires Ends(b, after, Serialize(mid + [dc] + post))
    ensures ScanFor(b, after, DataId) == Found(after + |Serialize(mid)| + 8, |dc.body|)
  {
    ScanSerialized(b, after, mid + [dc] + post, DataId);
    LocateFirst(mid, dc, post, DataId, after);
  }

  /** The `data` body sits right behind its header. */
  lemma DataBodyOfLayout(b: seq<byte>, after: nat, mid: seq<Chunk>, dc: Chunk, rest: seq<byte>)
    requires AllWellFormed(mid) && WellFormed(dc)
    requires Ends(b, after, Serialize(mid) + ChunkBytes(dc) + rest)
    ensures Placed(b, after + |Serialize(mid)| + 8, dc.body)
  {
    var sm := Serialize(mid);
    SplitEnds(b, after, sm + ChunkBytes(dc), rest);
    SplitPlaced(b, after, sm, ChunkBytes(dc));
    ChunkHeaderAt(b, after + |sm|, dc);
  }

  /** Where the `fmt ` scan stops over the chunks of a layout. */
  lemma LayoutFmtScan(b: seq<byte>, pre: seq<Chunk>, f: Fmt, ext: seq<byte>,
                      mid: seq<Chunk>, pcm: seq<byte>, post: seq<Chunk>)
    requires FmtFits(f) && FmtFieldsSize + |ext| < U32Limit && |pcm| < U32Limit
    requires AllWellFormed(pre) && AllWellFormed(mid) && AllWellFormed(post)
    requires Lacks(pre, FmtId) && Lacks(mid, DataId)
    requires AllWellFormed(Layout(pre, FmtChunk(f, ext), mid, DataChunk(pcm), post))
    requires Ends(b, 12, Serialize(Layout(pre, FmtChunk(f, ext), mid, DataChunk(pcm), post)))
    ensures ScanFor(b, 12, FmtId) == Found(FmtBodyAt(pre), FmtFieldsSize + |ext|)
    ensures FmtBodyAt(pre) + FmtFieldsSize <= |b| && ParseFmt(b, FmtBodyAt(pre)) == f
  {
    var fc := FmtChunk(f, ext);
    var tail := mid + [DataChunk(pcm)] + post;
    LayoutWellFormed(pre, fc, mid, DataChunk(pcm), post);
    FmtScanOfLayout(b, pre, fc, tail);
    FmtFieldsOfLayout(b, pre, f, ext, Serialize(tail));
  }

  /** Where the `data` scan stops over the chunks of a layout. */
  lemma LayoutDataScan(b: seq<byte>, pre: seq<Chunk>, f: Fmt, ext: seq<byte>,
                       mid: seq<Chunk>, pcm: seq<byte>, post: seq<Chunk>)
    requires FmtFits(f) && FmtFieldsSize + |ext| < U32Limit && |pcm| < U32Limit
    requires AllWellFormed(pre) && AllWellFormed(mid) && AllWellFormed(post)
    requires Lacks(pre, FmtId) && Lacks(mid, DataId)
    requires AllWellFormed(Layout(pre, FmtChunk(f, ext), mid, DataChunk(pcm), post))
    requires Ends(b, 12, Serialize(Layout(pre, FmtChunk(f, ext), mid, DataChunk(pcm), post)))
    ensures ScanFor(b, AfterFmt(FmtBodyAt(pre), FmtFieldsSize + |ext|), DataId)
         == Found(DataBodyAt(pre, FmtChunk(f, ext), mid), |pcm|)
    ensures Placed(b, DataBodyAt(pre, FmtChunk(f, ext), mid), pcm)
  {
    var fc := FmtChunk(f, ext);
    var dc := DataChunk(pcm);
    var tail := mid + [dc] + post;
    LayoutWellFormed(pre, fc, mid, dc, post);
    AfterFmtOfLayout(b, pre, fc, Serialize(tail));
    var after := AfterFmt(FmtBodyAt(pre), |fc.body|);
    DataScanOfLayout(b, after, mid, dc, post);
    DataBodyOfLayout(b, after, mid, dc, Serialize(post));
  }

  /** Both scans over a written file: the `fmt ` chunk is the first one
      carrying that id, and the `data` scan, starting right after it, finds
      the first `data` chunk behind it. */
  lemma HeaderOfLayout(riffSize: nat, pre: seq<Chunk>, f: Fmt, ext: seq<byte>,
                       mid: seq<Chunk>, pcm: seq<byte>, post: seq<Chunk>)
    requires Writable(riffSize, pre, f, ext, mid, post) && |pcm| < U32Limit
    requires Lacks(pre, FmtId) && Lacks(mid, DataId)
    requires f.audioFormat == PcmFormat && |pcm| > 0
    ensures AllWellFormed(Layout(pre, FmtChunk(f, ext), mid, DataChunk(pcm), post))
    ensures ParseHeader(EncodeWav(riffSize, Layout(pre, FmtChunk(f, ext), mid, DataChunk(pcm), post)))
         == Ok(Header(f, FmtBodyAt(pre), |pcm|, DataBodyAt(pre, FmtChunk(f, ext), mid)))
    ensures Placed(EncodeWav(riffSize, Layout(pre, FmtChunk(f, ext), mid, DataChunk(pcm), post)),
                   DataBodyAt(pre, FmtChunk(f, ext), mid), pcm)
  {
    var fc := FmtChunk(f, ext);
    LayoutWellFormed(pre, fc, mid, DataChunk(pcm), post);
    var b := EncodeWav(riffSize, Layout(pre, fc, mid, DataChunk(pcm), post));
    LayoutFmtScan(b, pre, f, ext, mid, pcm, post);
    LayoutDataScan(b, pre, f, ext, mid, pcm, post);
    HeaderFound(b, FmtBodyAt(pre), |fc.body|, DataBodyAt(pre, fc, mid), |pcm|);
  }

  /** Round trip for 16-bit PCM: the metadata comes from the `fmt ` fields
      and the `data` size, and the samples are the reference downmix of the
      values written. */
  lemma RoundTrip16(riffSize: nat, pre: seq<Chunk>, f: Fmt, ext: seq<byte>,
                    mid: seq<Chunk>, vals: seq<int>, post: seq<Chunk>)
    requires Writable(riffSize, pre, f, ext, mid, post) && Pcm16Values(vals)
    requires Lacks(pre, FmtId) && Lacks(mid, DataId)
    requires f.audioFormat == PcmFormat && f.bitsPerSample == 16 && f.channels > 0
    requires 0 < |vals| && 2 * |vals| < U32Limit
    ensures AllWellFormed(Layout(pre, FmtChunk(f, ext), mid, DataChunk(EncodePcm16(vals)), post))
    ensures Decode(EncodeWav(riffSize, Layout(pre, FmtChunk(f, ext), mid, DataChunk(EncodePcm16(vals)), post)))
         == Ok(Decoded(MetaOf(Header(f, FmtBodyAt(pre), 2 * |vals|, DataBodyAt(pre, FmtChunk(f, ext), mid))),
                       MonoMix(vals, f.channels)))
  {
    var pcm := EncodePcm16(vals);
    HeaderOfLayout(riffSize, pre, f, ext, mid, pcm, post);
    var b := EncodeWav(riffSize, Layout(pre, FmtChunk(f, ext), mid, DataChunk(pcm), post));
    var hd := Header(f, FmtBodyAt(pre), 2 * |vals|, DataBodyAt(pre, FmtChunk(f, ext), mid));
    Pcm16Carries(b, hd.dataStart, vals);
    FramesMatch(b, hd.dataStart, f, vals);
    DivTwice(|vals|, f.channels);
    assert hd.dataSize / FrameBytes(f) == |vals| / f.channels by {
      assert hd.dataSize == |vals| * 2 && FrameBytes(f) == f.channels * 2;
    }
  }

  /** Round trip for 8-bit PCM, with values on the `(b - 128) * 256` grid. */
  lemma RoundTrip8(riffSize: nat, pre: seq<Chunk>, f: Fmt, ext: seq<byte>,
                   mid: seq<Chunk>, vals: seq<int>, post: seq<Chunk>)
    requires Writable(riffSize, pre, f, ext, mid, post) && Pcm8Values(vals)
    requires Lacks(pre, FmtId) && Lacks(mid, DataId)
    requires f.audioFormat == PcmFormat && f.bitsPerSample == 8 && f.channels > 0
    requires 0 < |vals| < U32Limit
    ensures AllWellFormed(Layout(pre, FmtChunk(f, ext), mid, DataChunk(EncodePcm8(vals)), post))
    ensures Decode(EncodeWav(riffSize, Layout(pre, FmtChunk(f, ext), mid, DataChunk(EncodePcm8(vals)), post)))
         == Ok(Decoded(MetaOf(Header(f, FmtBodyAt(pre), |vals|, DataBodyAt(pre, FmtChunk(f, ext), mid))),
                       MonoMix(vals, f.channels)))
  {
    var pcm := EncodePcm8(vals);
    HeaderOfLayout(riffSize, pre, f, ext, mid, pcm, post);
    var b := EncodeWav(riffSize, Layout(pre, FmtChunk(f, ext), mid, DataChunk(pcm), post));
    var hd := Header(f, FmtBodyAt(pre), |vals|, DataBodyAt(pre, FmtChunk(f, ext), mid));
    Pcm8Carries(b, hd.dataStart, vals);
    FramesMatch(b, hd.dataStart, f, vals);
    assert FrameBytes(f) == f.channels;
  }
}
