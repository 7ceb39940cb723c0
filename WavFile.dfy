/**
 * WavFileWriter: a RIFF/WAVE file with an 18-byte "fmt " chunk (PCM,
 * cbSize 0). The 46-byte header is written with zero sizes when the file is
 * created, samples are appended one at a time, and the first Dispose seeks
 * back to patch ChunkSize (offset 4) and DataSize (offset 0x2A).
 *
 * A sample arrives as the integer the float scaling produced (the scaling is
 * not modelled); its bytes depend on the sample depth.
 */
module WavFile {
  import opened Bytes
  import opened OutputFields

  datatype SampleDepth = Bits8 | Bits16 | Bits24 | Bits32

  const WaveHeaderSize: nat := 38
  const ChunkIdRiff: nat := 0x46464952
  const FormatWave: nat := 0x45564157
  const FmtChunkId: nat := 0x20746d66
  const FmtChunkSize: nat := 18
  const AudioFormatPcm: nat := 1
  const ExtraParamSize: nat := 0
  const DataChunkId: nat := 0x61746164
  const ChunkSizeOffset: nat := 4
  const DataSizeOffset: nat := 0x2A
  const HeaderLength: nat := 46

  function BitsPerSample(d: SampleDepth): nat
  {
    match d
    case Bits8 => 8
    case Bits16 => 16
    case Bits24 => 24
    case Bits32 => 32
  }

  /** BitsPerSample / 8. */
  function BytesPerSample(d: SampleDepth): nat
  {
    BitsPerSample(d) / 8
  }

  // The size properties, in uint (and, for BlockAlign, ushort) arithmetic.

  function ByteRate(sampleRate: nat, channels: nat, d: SampleDepth): nat
  {
    WrapU32(sampleRate * channels * BytesPerSample(d))
  }

  function BlockAlign(channels: nat, d: SampleDepth): nat
  {
    (channels * BytesPerSample(d)) % 0x1_0000
  }

  function DataSize(numSamples: nat, channels: nat, d: SampleDepth): nat
  {
    WrapU32(numSamples * channels * BytesPerSample(d))
  }

  function ChunkSize(numSamples: nat, channels: nat, d: SampleDepth): nat
  {
    WrapU32(WaveHeaderSize + DataSize(numSamples, channels, d))
  }

  /**
   * The fields WriteHeader writes, in order, each at the width of its C#
   * type, given the values of the size properties; ChunkSize is 38 plus
   * DataSize in uint arithmetic.
   */
  function HeaderFields(sampleRate: nat, channels: nat, byteRate: nat, blockAlign: nat, bits: nat, dataSize: nat): seq<Field>
  {
    [Field(ChunkIdRiff, 4), Field(WrapU32(WaveHeaderSize + dataSize), 4), Field(FormatWave, 4),
     Field(FmtChunkId, 4), Field(FmtChunkSize, 4), Field(AudioFormatPcm, 2), Field(channels, 2),
     Field(sampleRate, 4), Field(byteRate, 4), Field(blockAlign, 2), Field(bits, 2), Field(ExtraParamSize, 2),
     Field(DataChunkId, 4), Field(dataSize, 4)]
  }

  /** The header as WriteHeader writes it after numSamples samples. */
  function HeaderBytes(sampleRate: nat, channels: nat, d: SampleDepth, numSamples: nat): seq<Byte>
  {
    FieldBytes(HeaderFields(sampleRate, channels, ByteRate(sampleRate, channels, d), BlockAlign(channels, d),
                            BitsPerSample(d), DataSize(numSamples, channels, d)))
  }

  lemma HeaderFits(sampleRate: nat, channels: nat, d: SampleDepth, numSamples: nat)
    requires sampleRate < Two32 && channels < 0x1_0000
    ensures Fits(HeaderFields(sampleRate, channels, ByteRate(sampleRate, channels, d), BlockAlign(channels, d),
                              BitsPerSample(d), DataSize(numSamples, channels, d)))
  {
    Pow256Values();
  }

  /** The header's fields sit at their RIFF offsets and read back as written. */
  lemma HeaderLayout(sampleRate: nat, channels: nat, d: SampleDepth, numSamples: nat)
    requires sampleRate < Two32 && channels < 0x1_0000
    ensures |HeaderBytes(sampleRate, channels, d, numSamples)| == HeaderLength
    ensures var h := HeaderBytes(sampleRate, channels, d, numSamples);
      U32At(h, 0) == ChunkIdRiff && U32At(h, 4) == ChunkSize(numSamples, channels, d)
      && U32At(h, 8) == FormatWave && U32At(h, 12) == FmtChunkId && U32At(h, 16) == FmtChunkSize
      && U16At(h, 20) == AudioFormatPcm && U16At(h, 22) == channels && U32At(h, 24) == sampleRate
      && U32At(h, 28) == ByteRate(sampleRate, channels, d) && U16At(h, 32) == BlockAlign(channels, d)
      && U16At(h, 34) == BitsPerSample(d) && U16At(h, 36) == ExtraParamSize
      && U32At(h, 38) == DataChunkId && U32At(h, 42) == DataSize(numSamples, channels, d)
  {
    HeaderFits(sampleRate, channels, d, numSamples);
    HeaderReads(HeaderFields(sampleRate, channels, ByteRate(sampleRate, channels, d), BlockAlign(channels, d),
                             BitsPerSample(d), DataSize(numSamples, channels, d)));
  }

  /** Any fields at the header's widths read back at the header's offsets. */
  lemma HeaderReads(fs: seq<Field>)
    requires |fs| == 14 && fs[0].width == 4 && fs[1].width == 4 && fs[2].width == 4 && fs[3].width == 4
    requires fs[4].width == 4 && fs[5].width == 2 && fs[6].width == 2 && fs[7].width == 4 && fs[8].width == 4
    requires fs[9].width == 2 && fs[10].width == 2 && fs[11].width == 2 && fs[12].width == 4 && fs[13].width == 4
    requires Fits(fs)
    ensures |FieldBytes(fs)| == HeaderLength
    ensures var h := FieldBytes(fs);
      U32At(h, 0) == fs[0].value && U32At(h, 4) == fs[1].value && U32At(h, 8) == fs[2].value
      && U32At(h, 12) == fs[3].value && U32At(h, 16) == fs[4].value && U16At(h, 20) == fs[5].value
      && U16At(h, 22) == fs[6].value && U32At(h, 24) == fs[7].value && U32At(h, 28) == fs[8].value
      && U16At(h, 32) == fs[9].value && U16At(h, 34) == fs[10].value && U16At(h, 36) == fs[11].value
      && U32At(h, 38) == fs[12].value && U32At(h, 42) == fs[13].value
  {
    HeaderOffsets(fs);
    FieldReadAt(fs, 0, 0);
    FieldReadAt(fs, 1, 4);
    FieldReadAt(fs, 2, 8);
    FieldReadAt(fs, 3, 12);
    FieldReadAt(fs, 4, 16);
    FieldReadAt(fs, 5, 20);
    FieldReadAt(fs, 6, 22);
    FieldReadAt(fs, 7, 24);
    FieldReadAt(fs, 8, 28);
    FieldReadAt(fs, 9, 32);
    FieldReadAt(fs, 10, 34);
    FieldReadAt(fs, 11, 36);
    FieldReadAt(fs, 12, 38);
    FieldReadAt(fs, 13, 42);
  }

  /**
   * UpdateHeader's two writes, ChunkSize at offset 4 and DataSize at 0x2A,
   * turn the header written for one DataSize into the header for another.
   */
  lemma HeaderPatch(sampleRate: nat, channels: nat, byteRate: nat, blockAlign: nat, bits: nat, oldSize: nat, newSize: nat)
    ensures |FieldBytes(HeaderFields(sampleRate, channels, byteRate, blockAlign, bits, oldSize))| == HeaderLength
    ensures Overwrite(Overwrite(FieldBytes(HeaderFields(sampleRate, channels, byteRate, blockAlign, bits, oldSize)),
                                ChunkSizeOffset, LeBytes(WrapU32(WaveHeaderSize + newSize), 4)),
                      DataSizeOffset, LeBytes(newSize, 4))
         == FieldBytes(HeaderFields(sampleRate, channels, byteRate, blockAlign, bits, newSize))
  {
    var fs := HeaderFields(sampleRate, channels, byteRate, blockAlign, bits, oldSize);
    var gs := fs[1 := Field(WrapU32(WaveHeaderSize + newSize), 4)];
    PatchField(fs, 1, 4, WrapU32(WaveHeaderSize + newSize));
    PatchField(gs, 13, DataSizeOffset, newSize);
    assert gs[13 := Field(newSize, 4)] == HeaderFields(sampleRate, channels, byteRate, blockAlign, bits, newSize);
  }

  /** Seeking to a header field's offset and writing a value of its width replaces that field. */
  lemma PatchField(fs: seq<Field>, k: nat, at: nat, v: nat)
    requires |fs| == 14 && fs[0].width == 4 && fs[1].width == 4 && fs[2].width == 4 && fs[3].width == 4
    requires fs[4].width == 4 && fs[5].width == 2 && fs[6].width == 2 && fs[7].width == 4 && fs[8].width == 4
    requires fs[9].width == 2 && fs[10].width == 2 && fs[11].width == 2 && fs[12].width == 4 && fs[13].width == 4
    requires (k == 1 && at == ChunkSizeOffset) || (k == 13 && at == DataSizeOffset)
    ensures |FieldBytes(fs)| == HeaderLength && at + 4 <= HeaderLength
    ensures Overwrite(FieldBytes(fs), at, LeBytes(v, 4)) == FieldBytes(fs[k := Field(v, 4)])
  {
    HeaderOffsets(fs);
    FieldPatch(fs, k, v);
  }

  // ----- the bytes each sample adds -----

  /** Whether x fits the C# variable the sample is converted into: sbyte, short, int or long. */
  predicate SampleFits(d: SampleDepth, x: int)
  {
    match d
    case Bits8 => -0x80 <= x < 0x80
    case Bits16 => Int16Min <= x <= Int16Max
    case Bits24 => Int32Min <= x <= Int32Max
    case Bits32 => Int64Min <= x <= Int64Max
  }

  /** How many bytes WriteSample appends at depth d: a long's eight at 32 bits. */
  function WrittenWidth(d: SampleDepth): nat
  {
    if d == Bits32 then 8 else BytesPerSample(d)
  }

  /**
   * WriteSample's bytes: an sbyte, a short, the low three bytes of an int
   * (SignedBytesPrefix), or, for 32-bit depth, a long.
   */
  function SampleBytes(d: SampleDepth, x: int): (r: seq<Byte>)
    ensures |r| == WrittenWidth(d)
  {
    SignedBytes(x, WrittenWidth(d))
  }

  /** Each sample's bytes, in the order the samples were written. */
  function SampleParts(d: SampleDepth, xs: seq<int>): (r: seq<seq<Byte>>)
    ensures |r| == |xs|
  {
    seq(|xs|, k requires 0 <= k < |xs| => SampleBytes(d, xs[k]))
  }

  /** The data chunk: the samples' bytes in the order they were written. */
  function SampleData(d: SampleDepth, xs: seq<int>): seq<Byte>
  {
    Joined(SampleParts(d, xs))
  }

  lemma SampleDataSnoc(d: SampleDepth, xs: seq<int>, x: int)
    ensures SampleData(d, xs + [x]) == SampleData(d, xs) + SampleBytes(d, x)
  {
    assert SampleParts(d, xs + [x]) == SampleParts(d, xs) + [SampleBytes(d, x)];
    JoinedSnoc(SampleParts(d, xs), SampleBytes(d, x));
  }

  /** Writing two runs of samples one after the other writes their data one after the other. */
  lemma SampleDataAppend(d: SampleDepth, xs: seq<int>, ys: seq<int>)
    ensures SampleData(d, xs + ys) == SampleData(d, xs) + SampleData(d, ys)
  {
    assert SampleParts(d, xs + ys) == SampleParts(d, xs) + SampleParts(d, ys);
    JoinedAppend(SampleParts(d, xs), SampleParts(d, ys));
  }

  /** Every sample adds WrittenWidth bytes. */
  lemma SampleDataLength(d: SampleDepth, xs: seq<int>)
    ensures |SampleData(d, xs)| == WrittenWidth(d) * |xs|
  {
    JoinedLength(SampleParts(d, xs), WrittenWidth(d));
  }

  /** With one channel, DataSize is n * BytesPerSample whenever that fits a uint. */
  lemma DataSizeOneChannel(n: nat, d: SampleDepth)
    requires BytesPerSample(d) * n < Two32
    ensures DataSize(n, 1, d) == BytesPerSample(d) * n
  {
    match d
    case Bits8 => assert BytesPerSample(d) == 1;
    case Bits16 => assert BytesPerSample(d) == 2;
    case Bits24 => assert BytesPerSample(d) == 3;
    case Bits32 => assert BytesPerSample(d) == 4;
  }

  /**
   * With one channel, as the audio extractor opens the file, the header's
   * DataSize is the length of the data chunk exactly when the depth is not
   * 32 bits (for a non-empty chunk whose size fits a uint).
   */
  lemma DataSizeMatchesUnless32(d: SampleDepth, xs: seq<int>)
    requires 0 < |xs| && 8 * |xs| < Two32
    ensures DataSize(|xs|, 1, d) == |SampleData(d, xs)| <==> d != Bits32
  {
    SampleDataLength(d, xs);
    DataSizeOneChannel(|xs|, d);
    match d
    case Bits8 =>
    case Bits16 =>
    case Bits24 =>
    case Bits32 =>
  }

  /** At 32 bits the data chunk holds twice the bytes DataSize announces. */
  lemma DataSizeUndercounts32(xs: seq<int>)
    requires 8 * |xs| < Two32
    ensures |SampleData(Bits32, xs)| == 2 * DataSize(|xs|, 1, Bits32)
  {
    SampleDataLength(Bits32, xs);
    DataSizeOneChannel(|xs|, Bits32);
  }

  /** The evidently intended 32-bit branch: an int, four bytes, as BitsPerSample says. */
  function CorrectedSampleBytes(d: SampleDepth, x: int): (r: seq<Byte>)
    ensures |r| == BytesPerSample(d)
  {
    SignedBytes(x, BytesPerSample(d))
  }

  function CorrectedSampleData(d: SampleDepth, xs: seq<int>): seq<Byte>
  {
    Joined(seq(|xs|, k requires 0 <= k < |xs| => CorrectedSampleBytes(d, xs[k])))
  }

  /** With the corrected branch, every depth appends BytesPerSample bytes per sample, as DataSize counts. */
  lemma CorrectedDataSizeMatches(d: SampleDepth, xs: seq<int>)
    ensures |CorrectedSampleData(d, xs)| == BytesPerSample(d) * |xs|
    ensures BytesPerSample(d) * |xs| < Two32 ==> DataSize(|xs|, 1, d) == |CorrectedSampleData(d, xs)|
  {
    JoinedLength(seq(|xs|, k requires 0 <= k < |xs| => CorrectedSampleBytes(d, xs[k])), BytesPerSample(d));
    if BytesPerSample(d) * |xs| < Two32 {
      DataSizeOneChannel(|xs|, d);
    }
  }

  /** The corrected writer and the one as written agree at every depth but 32 bits. */
  lemma CorrectedAgreesUnless32(d: SampleDepth, xs: seq<int>)
    requires d != Bits32
    ensures CorrectedSampleData(d, xs) == SampleData(d, xs)
  {
    assert seq(|xs|, k requires 0 <= k < |xs| => CorrectedSampleBytes(d, xs[k])) == SampleParts(d, xs);
  }

  class WavFileWriter {
    const sampleRate: nat
    const sampleDepth: SampleDepth
    const numChannels: nat
    /** ByteRate and BlockAlign, which depend only on the constructor's arguments. */
    const byteRate: nat
    const blockAlign: nat
    var numSamples: nat
    var disposed: bool
    /** The file's first 46 bytes, which UpdateHeader patches in place. */
    var header: seq<Byte>
    /** The rest of the file: the data chunk, appended to sample by sample. */
    var data: seq<Byte>
    /** The samples written so far, in order. */
    ghost var samples: seq<int>
    /** The DataSize the header was last written with. */
    ghost var headerDataSize: nat

    /** The file's bytes. */
    function File(): seq<Byte>
      reads this
    {
      header + data
    }

    /** The header this writer writes for a given DataSize. */
    function HeaderFor(dataSize: nat): seq<Byte>
    {
      FieldBytes(HeaderFields(sampleRate, numChannels, byteRate, blockAlign, BitsPerSample(sampleDepth), dataSize))
    }

    /**
     * The header is the one for the DataSize last written and the data
     * chunk holds every sample's bytes, in order; NumSamples counts the
     * samples in uint arithmetic.
     */
    ghost predicate Valid()
      reads this
    {
      numSamples == |samples| % Two32
      && header == HeaderFor(headerDataSize)
      && data == SampleData(sampleDepth, samples)
    }

    /** The constructor: a new file holding the header with zero sizes. */
    constructor(sampleRate: nat, bitsPerSample: SampleDepth, numChannels: nat)
      requires sampleRate < Two32 && numChannels < 0x1_0000
      ensures Valid() && !disposed
      ensures this.sampleRate == sampleRate && sampleDepth == bitsPerSample && this.numChannels == numChannels
      ensures byteRate == ByteRate(sampleRate, numChannels, bitsPerSample) && blockAlign == BlockAlign(numChannels, bitsPerSample)
      ensures numSamples == 0 && samples == [] && File() == HeaderBytes(sampleRate, numChannels, bitsPerSample, 0)
    {
      this.sampleRate := sampleRate;
      sampleDepth := bitsPerSample;
      this.numChannels := numChannels;
      byteRate := ByteRate(sampleRate, numChannels, bitsPerSample);
      blockAlign := BlockAlign(numChannels, bitsPerSample);
      numSamples := 0;
      disposed := false;
      samples := [];
      headerDataSize := 0;
      data := [];
      new;
      header := HeaderFor(DataSize(0, numChannels, bitsPerSample));
    }

    /** WriteSample: the sample's bytes are appended and NumSamples++ (in uint arithmetic). */
    method WriteSample(x: int)
      requires Valid() && !disposed && SampleFits(sampleDepth, x)
      modifies this
      ensures Valid() && !disposed
      ensures samples == old(samples) + [x] && numSamples == (old(numSamples) + 1) % Two32
      ensures File() == old(File()) + SampleBytes(sampleDepth, x) && header == old(header)
    {
      SampleDataSnoc(sampleDepth, samples, x);
      WrapU32Add(|samples|, 1);
      data := data + SampleBytes(sampleDepth, x);
      numSamples := (numSamples + 1) % Two32;
      samples := samples + [x];
    }

    /** WriteSamples: each sample in order; NumSamples rises by the count. */
    method WriteSamples(xs: seq<int>)
      requires Valid() && !disposed && forall k :: 0 <= k < |xs| ==> SampleFits(sampleDepth, xs[k])
      modifies this
      ensures Valid() && !disposed
      ensures samples == old(samples) + xs && numSamples == (old(numSamples) + |xs|) % Two32
      ensures header == old(header) && data == old(data) + SampleData(sampleDepth, xs)
      ensures File() == old(File()) + SampleData(sampleDepth, xs)
    {
      for i := 0 to |xs|
        invariant Valid() && !disposed && header == old(header)
        invariant samples == old(samples) + xs[..i]
      {
        WriteSample(xs[i]);
        assert xs[..i + 1] == xs[..i] + [xs[i]];
      }
      assert xs[..|xs|] == xs;
      assert data == old(data) + SampleData(sampleDepth, xs) by {
        SampleDataAppend(sampleDepth, old(samples), xs);
      }
      assert numSamples == (old(numSamples) + |xs|) % Two32 by {
        assert |samples| == |old(samples)| + |xs|;
        WrapU32Add(|old(samples)|, |xs|);
      }
      AppendAssoc(header, old(data), SampleData(sampleDepth, xs));
    }

    /** UpdateHeader: ChunkSize and DataSize are rewritten in place; nothing else changes. */
    method UpdateHeader()
      requires Valid()
      modifies this
      ensures Valid() && disposed == old(disposed) && samples == old(samples) && numSamples == old(numSamples)
      ensures header == HeaderFor(DataSize(numSamples, numChannels, sampleDepth)) && data == old(data)
    {
      var dataSize := DataSize(numSamples, numChannels, sampleDepth);
      HeaderPatch(sampleRate, numChannels, byteRate, blockAlign, BitsPerSample(sampleDepth), headerDataSize, dataSize);
      header := Overwrite(header, ChunkSizeOffset, LeBytes(WrapU32(WaveHeaderSize + dataSize), 4));
      header := Overwrite(header, DataSizeOffset, LeBytes(dataSize, 4));
      headerDataSize := dataSize;
    }

    /** Dispose: the first call patches the header; later calls change nothing. */
    method Dispose()
      requires Valid()
      modifies this
      ensures Valid() && disposed && samples == old(samples) && data == old(data)
      ensures old(disposed) ==> header == old(header)
      ensures !old(disposed) ==> header == HeaderFor(DataSize(numSamples, numChannels, sampleDepth))
    {
      if !disposed {
        UpdateHeader();
        disposed := true;
      }
    }
  }

  /** The header a writer keeps is the one WriteHeader writes for its arguments. */
  lemma HeaderForWriter(w: WavFileWriter, n: nat)
    requires w.byteRate == ByteRate(w.sampleRate, w.numChannels, w.sampleDepth)
    requires w.blockAlign == BlockAlign(w.numChannels, w.sampleDepth)
    ensures w.HeaderFor(DataSize(n, w.numChannels, w.sampleDepth)) == HeaderBytes(w.sampleRate, w.numChannels, w.sampleDepth, n)
  {
  }

  /** The offsets of a header's fields, given their widths. */
  lemma HeaderOffsets(fs: seq<Field>)
    requires |fs| == 14 && fs[0].width == 4 && fs[1].width == 4 && fs[2].width == 4 && fs[3].width == 4
    requires fs[4].width == 4 && fs[5].width == 2 && fs[6].width == 2 && fs[7].width == 4 && fs[8].width == 4
    requires fs[9].width == 2 && fs[10].width == 2 && fs[11].width == 2 && fs[12].width == 4 && fs[13].width == 4
    ensures FieldOffset(fs, 0) == 0 && FieldOffset(fs, 1) == 4 && FieldOffset(fs, 2) == 8 && FieldOffset(fs, 3) == 12
    ensures FieldOffset(fs, 4) == 16 && FieldOffset(fs, 5) == 20 && FieldOffset(fs, 6) == 22 && FieldOffset(fs, 7) == 24
    ensures FieldOffset(fs, 8) == 28 && FieldOffset(fs, 9) == 32 && FieldOffset(fs, 10) == 34
    ensures FieldOffset(fs, 11) == 36 && FieldOffset(fs, 12) == 38 && FieldOffset(fs, 13) == DataSizeOffset
    ensures |FieldBytes(fs)| == HeaderLength
  {
    FieldOffsetStep(fs, 0);
    FieldOffsetStep(fs, 1);
    FieldOffsetStep(fs, 2);
    FieldOffsetStep(fs, 3);
    FieldOffsetStep(fs, 4);
    FieldOffsetStep(fs, 5);
    FieldOffsetStep(fs, 6);
    FieldOffsetStep(fs, 7);
    FieldOffsetStep(fs, 8);
    FieldOffsetStep(fs, 9);
    FieldOffsetStep(fs, 10);
    FieldOffsetStep(fs, 11);
    FieldOffsetStep(fs, 12);
    FieldOffsetStep(fs, 13);
    FieldBytesLength(fs);
    assert fs[..14] == fs;
  }
}
