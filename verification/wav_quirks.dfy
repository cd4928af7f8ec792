/**
  The decoder's departures from the RIFF/WAVE standard, stated over whole
  files: the RIFF size field is never read, a file without a `fmt ` chunk is
  reported as non-PCM, a `data` chunk in front of `fmt ` is never found, and
  an empty `data` chunk counts as missing even when a later one is not empty.
 */
module WavQuirks {
  import opened Common
  import opened Bytes
  import opened Wav
  import opened WavLayout
  import opened WavTheorems

  // ---------------------------------------------------------------------
  // The RIFF size field

  /** Two files that differ at most in the RIFF size field (bytes 4-7). */
  predicate SameButRiffSize(b1: seq<byte>, b2: seq<byte>)
  {
    |b1| == |b2| && forall k :: 0 <= k < |b1| && !(4 <= k < 8) ==> b1[k] == b2[k]
  }

  lemma {:induction false} ScanSame(b1: seq<byte>, b2: seq<byte>, pos: nat, id: seq<byte>)
    requires SameButRiffSize(b1, b2) && pos >= 8
    ensures ScanFor(b1, pos, id) == ScanFor(b2, pos, id)
    decreases |b1| - pos
  {
    if pos + 8 <= |b1| {
      assert b1[pos..pos + 4] == b2[pos..pos + 4];
      assert b1[pos + 4] == b2[pos + 4] && b1[pos + 5] == b2[pos + 5];
      assert b1[pos + 6] == b2[pos + 6] && b1[pos + 7] == b2[pos + 7];
      if b1[pos..pos + 4] != id {
        ScanSame(b1, b2, pos + 8 + U32(b1, pos + 4), id);
      }
    }
  }

  lemma FmtSame(b1: seq<byte>, b2: seq<byte>, p: nat)
    requires SameButRiffSize(b1, b2) && p >= 8 && p + FmtFieldsSize <= |b1|
    ensures ParseFmt(b1, p) == ParseFmt(b2, p)
  {
    assert forall k :: p <= k < p + FmtFieldsSize ==> b1[k] == b2[k];
  }

  lemma {:induction false} FrameSumSame(b1: seq<byte>, b2: seq<byte>, p: nat, channels: nat, bits: nat)
    requires SameButRiffSize(b1, b2) && p >= 8
    requires IsPcmDepth(bits) ==> p + channels * (bits / 8) <= |b1|
    ensures FrameSum(b1, p, channels, bits) == FrameSum(b2, p, channels, bits)
    decreases channels
  {
    if channels > 0 {
      FrameSumLast(b1, p, channels, bits);
      FrameSumLast(b2, p, channels, bits);
      var q := p + (channels - 1) * (bits / 8);
      if bits == 16 {
        assert b1[q] == b2[q] && b1[q + 1] == b2[q + 1];
      } else if bits == 8 {
        assert b1[q] == b2[q];
      }
      FrameSumSame(b1, b2, p, channels - 1, bits);
    }
  }

  lemma FramesSame(b1: seq<byte>, b2: seq<byte>, start: nat, f: Fmt, count: nat)
    requires SameButRiffSize(b1, b2) && start >= 8 && f.channels > 0
    requires IsPcmDepth(f.bitsPerSample) ==> start + count * FrameBytes(f) <= |b1|
    ensures DecodeFrames(b1, start, f, count) == DecodeFrames(b2, start, f, count)
  {
    forall i | 0 <= i < count
      ensures FrameSample(b1, start, f, count, i) == FrameSample(b2, start, f, count, i)
    {
      FrameSampleSame(b1, b2, start, f, count, i);
    }
  }

  lemma FrameSampleSame(b1: seq<byte>, b2: seq<byte>, start: nat, f: Fmt, count: nat, i: nat)
    requires SameButRiffSize(b1, b2) && start >= 8 && f.channels > 0 && i < count
    requires IsPcmDepth(f.bitsPerSample) ==> start + count * FrameBytes(f) <= |b1|
    ensures FrameSample(b1, start, f, count, i) == FrameSample(b2, start, f, count, i)
  {
    FrameFits(i, count, FrameBytes(f));
    FrameSumSame(b1, b2, start + i * FrameBytes(f), f.channels, f.bitsPerSample);
  }

  lemma HeaderSame(b1: seq<byte>, b2: seq<byte>)
    requires SameButRiffSize(b1, b2)
    ensures ParseHeader(b1) == ParseHeader(b2)
  {
    if 12 <= |b1| {
      assert b1[..4] == b2[..4] && b1[8..12] == b2[8..12];
      ScanSame(b1, b2, 12, FmtId);
      match ScanFor(b1, 12, FmtId)
      case Found(body, size) =>
        if body + FmtFieldsSize <= |b1| {
          FmtSame(b1, b2, body);
          ScanSame(b1, b2, AfterFmt(body, size), DataId);
        }
      case _ =>
    }
  }

  lemma BodySame(b1: seq<byte>, b2: seq<byte>, h: Header)
    requires SameButRiffSize(b1, b2) && h.dataStart >= 8
    requires h.dataSize > 0 && h.fmt.byteRate < U32Limit
    ensures DecodeBody(b1, h) == DecodeBody(b2, h)
  {
    if FrameBytes(h.fmt) > 0 {
      var count := h.dataSize / FrameBytes(h.fmt);
      if !(IsPcmDepth(h.fmt.bitsPerSample) && |b1| < h.dataStart + count * FrameBytes(h.fmt)) {
        FramesSame(b1, b2, h.dataStart, h.fmt, count);
      }
    }
  }

  /** Nothing the decoder computes depends on the RIFF size field: whatever
      bytes 4-7 hold, the outcome and the emitted signals are the same. */
  lemma RiffSizeIgnored(b1: seq<byte>, b2: seq<byte>)
    requires SameButRiffSize(b1, b2)
    ensures Decode(b1) == Decode(b2)
    ensures LoadWavEvents(b1) == LoadWavEvents(b2)
  {
    HeaderSame(b1, b2);
    if ParseHeader(b1).Ok? {
      BodySame(b1, b2, ParseHeader(b1).value);
    }
  }

  /** Any two RIFF size values written in front of the same chunks decode
      alike. */
  lemma AnyRiffSize(r1: nat, r2: nat, cs: seq<Chunk>)
    requires r1 < U32Limit && r2 < U32Limit && AllWellFormed(cs)
    ensures Decode(EncodeWav(r1, cs)) == Decode(EncodeWav(r2, cs))
  {
    var b1 := EncodeWav(r1, cs);
    var b2 := EncodeWav(r2, cs);
    forall k | 0 <= k < |b1| && !(4 <= k < 8) ensures b1[k] == b2[k] {
      if k < 4 {
        assert b1[..4][k] == b2[..4][k];
      } else if k < 12 {
        assert b1[8..12][k - 8] == b2[8..12][k - 8];
      } else {
        assert b1[12 + (k - 12)] == b2[12 + (k - 12)];
      }
    }
    RiffSizeIgnored(b1, b2);
  }

  // ---------------------------------------------------------------------
  // Missing, misplaced and empty chunks

  lemma FmtSplit(pre: seq<Chunk>, fc: Chunk, rest: seq<Chunk>)
    requires AllWellFormed(pre) && WellFormed(fc) && AllWellFormed(rest)
    ensures AllWellFormed(pre + [fc] + rest)
    ensures Serialize(pre + [fc] + rest) == Serialize(pre) + ChunkBytes(fc) + Serialize(rest)
  {
    assert Serialize([fc]) == ChunkBytes(fc);
    SerializeAppend(pre, [fc]);
    SerializeAppend(pre + [fc], rest);
  }

  /** With no `fmt ` chunk at all the decoder reports the PCM-only error,
      because the format field it checks starts out as 0. */
  lemma MissingFmtIsNotPcm(riffSize: nat, cs: seq<Chunk>)
    requires riffSize < U32Limit && AllWellFormed(cs) && Lacks(cs, FmtId)
    ensures Decode(EncodeWav(riffSize, cs)) == Err(NotPcm)
    ensures LoadWavEvents(EncodeWav(riffSize, cs)) == [ErrorOccurred(NotPcm)]
  {
    var b := EncodeWav(riffSize, cs);
    ScanSerialized(b, 12, cs, FmtId);
    LocateAbsent(cs, FmtId, 12);
  }

  /** Any format code other than PCM is rejected with that same error,
      whatever follows the `fmt ` chunk. */
  lemma NonPcmRejected(riffSize: nat, pre: seq<Chunk>, f: Fmt, ext: seq<byte>, rest: seq<Chunk>)
    requires riffSize < U32Limit && FmtFits(f) && FmtFieldsSize + |ext| < U32Limit
    requires AllWellFormed(pre) && AllWellFormed(rest) && Lacks(pre, FmtId)
    requires f.audioFormat != PcmFormat
    ensures AllWellFormed(pre + [FmtChunk(f, ext)] + rest)
    ensures Decode(EncodeWav(riffSize, pre + [FmtChunk(f, ext)] + rest)) == Err(NotPcm)
  {
    var fc := FmtChunk(f, ext);
    FmtSplit(pre, fc, rest);
    var b := EncodeWav(riffSize, pre + [fc] + rest);
    FmtScanOfLayout(b, pre, fc, rest);
    FmtFieldsOfLayout(b, pre, f, ext, Serialize(rest));
  }

  /** The `data` scan starts behind the `fmt ` chunk, so a `data` chunk in
      front of it (anywhere in `pre`) is never found. */
  lemma DataBeforeFmtIsMissed(riffSize: nat, pre: seq<Chunk>, f: Fmt, ext: seq<byte>, rest: seq<Chunk>)
    requires riffSize < U32Limit && FmtFits(f) && FmtFieldsSize + |ext| < U32Limit
    requires AllWellFormed(pre) && AllWellFormed(rest) && Lacks(pre, FmtId)
    requires f.audioFormat == PcmFormat && Lacks(rest, DataId)
    ensures AllWellFormed(pre + [FmtChunk(f, ext)] + rest)
    ensures Decode(EncodeWav(riffSize, pre + [FmtChunk(f, ext)] + rest)) == Err(NoDataChunk)
    ensures LoadWavEvents(EncodeWav(riffSize, pre + [FmtChunk(f, ext)] + rest)) == [ErrorOccurred(NoDataChunk)]
  {
    var fc := FmtChunk(f, ext);
    FmtSplit(pre, fc, rest);
    var b := EncodeWav(riffSize, pre + [fc] + rest);
    FmtScanOfLayout(b, pre, fc, rest);
    FmtFieldsOfLayout(b, pre, f, ext, Serialize(rest));
    AfterFmtOfLayout(b, pre, fc, Serialize(rest));
    var after := AfterFmt(FmtBodyAt(pre), |fc.body|);
    ScanSerialized(b, after, rest, DataId);
    LocateAbsent(rest, DataId, after);
  }

  /** The first `data` chunk behind `fmt ` decides: if it is empty the file
      is reported as having no data, whatever chunks follow. */
  lemma EmptyDataIsMissing(riffSize: nat, pre: seq<Chunk>, f: Fmt, ext: seq<byte>,
                           mid: seq<Chunk>, post: seq<Chunk>)
    requires Writable(riffSize, pre, f, ext, mid, post)
    requires Lacks(pre, FmtId) && Lacks(mid, DataId) && f.audioFormat == PcmFormat
    ensures AllWellFormed(Layout(pre, FmtChunk(f, ext), mid, DataChunk([]), post))
    ensures Decode(EncodeWav(riffSize, Layout(pre, FmtChunk(f, ext), mid, DataChunk([]), post))) == Err(NoDataChunk)
  {
    var fc := FmtChunk(f, ext);
    LayoutWellFormed(pre, fc, mid, DataChunk([]), post);
    var b := EncodeWav(riffSize, Layout(pre, fc, mid, DataChunk([]), post));
    LayoutFmtScan(b, pre, f, ext, mid, [], post);
    LayoutDataScan(b, pre, f, ext, mid, [], post);
  }
}
