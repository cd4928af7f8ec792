/**
  The writer side of the RIFF chunk layout, used as an independent reference
  for the decoder's scans: a file is a 12-byte RIFF/WAVE header followed by
  chunks, each a 4-byte id, a little-endian 32-bit body size and the body
  (no pad byte, matching what the decoder skips).
 */
module WavLayout {
  import opened Common
  import opened Bytes
  import opened Wav

  datatype Chunk = Chunk(id: seq<byte>, body: seq<byte>)

  predicate WellFormed(c: Chunk)
  {
    |c.id| == 4 && |c.body| < U32Limit
  }

  predicate AllWellFormed(cs: seq<Chunk>)
  {
    forall i :: 0 <= i < |cs| ==> WellFormed(cs[i])
  }

  /** No chunk of the list carries `id`. */
  predicate Lacks(cs: seq<Chunk>, id: seq<byte>)
  {
    forall i :: 0 <= i < |cs| ==> cs[i].id != id
  }

  /** `s` sits in `b` starting at `p`. */
  predicate Placed(b: seq<byte>, p: nat, s: seq<byte>)
  {
    p + |s| <= |b| && forall k :: 0 <= k < |s| ==> b[p + k] == s[k]
  }

  /** `s` sits in `b` starting at `p` and runs to the end of `b`. */
  predicate Ends(b: seq<byte>, p: nat, s: seq<byte>)
  {
    Placed(b, p, s) && |b| == p + |s|
  }

  lemma PlacedConcat(x: seq<byte>, y: seq<byte>)
    ensures Placed(x + y, 0, x) && Ends(x + y, |x|, y)
  {
    forall k | 0 <= k < |x| ensures (x + y)[0 + k] == x[k] { }
    forall k | 0 <= k < |y| ensures (x + y)[|x| + k] == y[k] { }
  }

  lemma SplitPlaced(b: seq<byte>, p: nat, x: seq<byte>, y: seq<byte>)
    requires Placed(b, p, x + y)
    ensures Placed(b, p, x) && Placed(b, p + |x|, y)
  {
    forall k | 0 <= k < |x| ensures b[p + k] == x[k] {
      assert (x + y)[k] == x[k];
    }
    forall k | 0 <= k < |y| ensures b[p + |x| + k] == y[k] {
      assert b[p + (|x| + k)] == (x + y)[|x| + k];
    }
  }

  lemma SplitEnds(b: seq<byte>, p: nat, x: seq<byte>, y: seq<byte>)
    requires Ends(b, p, x + y)
    ensures Placed(b, p, x) && Ends(b, p + |x|, y)
  {
    SplitPlaced(b, p, x, y);
  }

  function ChunkBytes(c: Chunk): (r: seq<byte>)
    requires WellFormed(c)
    ensures |r| == 8 + |c.body|
  {
    c.id + EncodeU32(|c.body|) + c.body
  }

  /** A written chunk header reads back as the chunk's id and body size. */
  lemma ChunkHeaderAt(b: seq<byte>, p: nat, c: Chunk)
    requires WellFormed(c) && Placed(b, p, ChunkBytes(c))
    ensures p + 8 <= |b| && b[p..p + 4] == c.id && U32(b, p + 4) == |c.body|
    ensures Placed(b, p + 8, c.body)
  {
    var size := EncodeU32(|c.body|);
    SplitPlaced(b, p, c.id + size, c.body);
    SplitPlaced(b, p, c.id, size);
    assert b[p..p + 4] == c.id by {
      forall k | 0 <= k < 4 ensures b[p..p + 4][k] == c.id[k] { assert b[p + k] == c.id[k]; }
    }
    assert b[p + 4 + 0] == size[0] && b[p + 4 + 1] == size[1];
    assert b[p + 4 + 2] == size[2] && b[p + 4 + 3] == size[3];
  }

  lemma TailWellFormed(cs: seq<Chunk>)
    requires AllWellFormed(cs) && cs != []
    ensures WellFormed(cs[0]) && AllWellFormed(cs[1..])
  {
    forall i | 0 <= i < |cs[1..]| ensures WellFormed(cs[1..][i]) {
      assert cs[1..][i] == cs[i + 1];
    }
  }

  function Serialize(cs: seq<Chunk>): (r: seq<byte>)
    requires AllWellFormed(cs)
  {
    if cs == [] then []
    else
      TailWellFormed(cs);
      ChunkBytes(cs[0]) + Serialize(cs[1..])
  }

  /** Where a scan over the serialized list stops, read off the list itself:
      the first chunk carrying `id`, found at its body offset from `base`. */
  function Locate(cs: seq<Chunk>, id: seq<byte>, base: nat): (r: Scan)
    ensures r.ShortHeader? == false
  {
    if cs == [] then Exhausted
    else if cs[0].id == id then Found(base + 8, |cs[0].body|)
    else Locate(cs[1..], id, base + 8 + |cs[0].body|)
  }

  /** The RIFF/WAVE header (with an arbitrary RIFF size) and the chunks. */
  function EncodeWav(riffSize: nat, cs: seq<Chunk>): (r: seq<byte>)
    requires riffSize < U32Limit && AllWellFormed(cs)
    ensures HasTags(r)
    ensures Ends(r, 12, Serialize(cs))
  {
    var h := RiffId + EncodeU32(riffSize) + WaveId;
    var r := h + Serialize(cs);
    assert r[..4] == RiffId && r[8..12] == WaveId;
    PlacedConcat(h, Serialize(cs));
    r
  }

  lemma {:induction false} SerializeAppend(a: seq<Chunk>, b: seq<Chunk>)
    requires AllWellFormed(a) && AllWellFormed(b)
    ensures AllWellFormed(a + b)
    ensures Serialize(a + b) == Serialize(a) + Serialize(b)
  {
    assert AllWellFormed(a + b) by {
      forall i | 0 <= i < |a + b| ensures WellFormed((a + b)[i]) {
        if i < |a| { assert (a + b)[i] == a[i]; } else { assert (a + b)[i] == b[i - |a|]; }
      }
    }
    if a == [] {
      assert a + b == b;
    } else {
      var rest := a[1..];
      TailWellFormed(a);
      assert (a + b)[1..] == rest + b;
      assert (a + b)[0] == a[0];
      SerializeAppend(rest, b);
      calc {
        Serialize(a + b);
        ChunkBytes(a[0]) + Serialize(rest + b);
        ChunkBytes(a[0]) + (Serialize(rest) + Serialize(b));
        (ChunkBytes(a[0]) + Serialize(rest)) + Serialize(b);
      }
    }
  }

  /** The decoder's scan, run over serialized chunks, stops exactly where
      `Locate` says: at the first chunk with the id sought, or at the end. */
  lemma {:induction false} ScanSerialized(b: seq<byte>, p: nat, cs: seq<Chunk>, id: seq<byte>)
    requires AllWellFormed(cs) && Ends(b, p, Serialize(cs))
    ensures ScanFor(b, p, id) == Locate(cs, id, p)
    decreases |cs|
  {
    if cs != [] {
      TailWellFormed(cs);
      var c := cs[0];
      var cb := ChunkBytes(c);
      var rest := Serialize(cs[1..]);
      assert Serialize(cs) == cb + rest;
      SplitEnds(b, p, cb, rest);
      ChunkHeaderAt(b, p, c);
      if c.id != id {
        ScanSerialized(b, p + |cb|, cs[1..], id);
      }
    }
  }

  /** The first chunk carrying `id` is the one found, wherever it sits. */
  lemma {:induction false} LocateFirst(a: seq<Chunk>, c: Chunk, d: seq<Chunk>, id: seq<byte>, base: nat)
    requires AllWellFormed(a) && WellFormed(c) && Lacks(a, id) && c.id == id
    ensures Locate(a + [c] + d, id, base) == Found(base + |Serialize(a)| + 8, |c.body|)
    decreases |a|
  {
    if a == [] {
      assert a + [c] + d == [c] + d;
    } else {
      assert (a + [c] + d)[1..] == a[1..] + [c] + d;
      assert Lacks(a[1..], id) by {
        forall i | 0 <= i < |a[1..]| ensures a[1..][i].id != id {
          assert a[1..][i] == a[i + 1];
        }
      }
      LocateFirst(a[1..], c, d, id, base + 8 + |a[0].body|);
    }
  }

  /** A list without `id` is scanned to its end. */
  lemma {:induction false} LocateAbsent(cs: seq<Chunk>, id: seq<byte>, base: nat)
    requires Lacks(cs, id)
    ensures Locate(cs, id, base) == Exhausted
    decreases |cs|
  {
    if cs != [] {
      assert Lacks(cs[1..], id) by {
        forall i | 0 <= i < |cs[1..]| ensures cs[1..][i].id != id {
          assert cs[1..][i] == cs[i + 1];
        }
      }
      LocateAbsent(cs[1..], id, base + 8 + |cs[0].body|);
    }
  }

  /** The `fmt ` fields fit their 16- and 32-bit slots. */
  predicate FmtFits(f: Fmt)
  {
    && f.audioFormat < U16Limit && f.channels < U16Limit && f.blockAlign < U16Limit
    && f.bitsPerSample < U16Limit && f.sampleRate < U32Limit && f.byteRate < U32Limit
  }

  /** The 16 bytes of `fmt ` fields, in the order the decoder reads them. */
  function EncodeFmt(f: Fmt): (r: seq<byte>)
    requires FmtFits(f)
    ensures |r| == FmtFieldsSize
  {
    EncodeU16(f.audioFormat) + EncodeU16(f.channels) + EncodeU32(f.sampleRate)
      + EncodeU32(f.byteRate) + EncodeU16(f.blockAlign) + EncodeU16(f.bitsPerSample)
  }

  /** Reading the fields back at any offset where they were written gives
      the same fields. */
  lemma FmtRoundTrip(b: seq<byte>, p: nat, f: Fmt)
    requires FmtFits(f) && Placed(b, p, EncodeFmt(f))
    ensures ParseFmt(b, p) == f
  {
    var a := EncodeU16(f.audioFormat);
    var c := EncodeU16(f.channels);
    var sr := EncodeU32(f.sampleRate);
    var br := EncodeU32(f.byteRate);
    var ba := EncodeU16(f.blockAlign);
    var bi := EncodeU16(f.bitsPerSample);
    SplitPlaced(b, p, a + c + sr + br + ba, bi);
    SplitPlaced(b, p, a + c + sr + br, ba);
    SplitPlaced(b, p, a + c + sr, br);
    SplitPlaced(b, p, a + c, sr);
    SplitPlaced(b, p, a, c);
    assert b[p + 0] == a[0] && b[p + 1] == a[1];
    assert b[p + 2 + 0] == c[0] && b[p + 2 + 1] == c[1];
    assert b[p + 4 + 0] == sr[0] && b[p + 4 + 1] == sr[1] && b[p + 4 + 2] == sr[2] && b[p + 4 + 3] == sr[3];
    assert b[p + 8 + 0] == br[0] && b[p + 8 + 1] == br[1] && b[p + 8 + 2] == br[2] && b[p + 8 + 3] == br[3];
    assert b[p + 12 + 0] == ba[0] && b[p + 12 + 1] == ba[1];
    assert b[p + 14 + 0] == bi[0] && b[p + 14 + 1] == bi[1];
  }
}
