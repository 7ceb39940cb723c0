/**
 * XEFAudioFrame (and XEFAudioData, the same layout with the subframe parse
 * written inline): the payload of an audio stream's event. A 16-byte header
 * of four uints (version, subframe count, subframes allocated, reserved) is
 * followed by SubFrameCount subframes of 14416 bytes. A subframe is seven
 * scalars (32 bytes), six ulong speaker tracking ids, 256 output samples,
 * 1024 microphone samples and 2048 speaker samples (floats, kept as their
 * bit patterns), then 1024 reserved bytes. Everything but the reserved
 * block is 32-bit words and that block is word-aligned, so the layout is
 * stated on the payload's words, with the reserved bytes taken from the
 * payload itself.
 */
module XefAudioFrameModel {
  import opened Wrappers
  import opened Bytes
  import opened Words
  import opened BinaryReading
  import XefDecoding

  // ----- the records -----

  datatype AudioSubframe = AudioSubframe(
    subFrameNumber: Word,
    eventBitField: Word,
    timeCounter: nat,
    beamMode: int,
    beamAngle: Word,
    beamAngleConfidence: Word,
    speakerTrackingIdCount: Word,
    speakerTrackingIds: seq<nat>,
    outBuffer: seq<Word>,
    micBuffer: seq<Word>,
    spkBuffer: seq<Word>,
    reservedByteArray: seq<Byte>)

  datatype AudioFrame = AudioFrame(
    version: Word,
    subFrameCount: Word,
    subFramesAllocated: Word,
    reserved: Word,
    subFrames: seq<AudioSubframe>)

  // The array lengths XEFAudioSubframe's constructor allocates.
  const SpeakerTrackingIdsSize: nat := 6
  const OutBufferSize: nat := 256
  const MicBufferSize: nat := 1024
  const SpkBufferSize: nat := 2048
  const ReservedSize: nat := 1024

  const HeaderSize: nat := 16
  const SubframeWordCount: nat := 3604   // 14416 bytes
  const SubframeSize: nat := 14416

  // ----- decoding: a subframe read out of the payload's words at a word offset -----

  /** The n ulongs of two words each from word i on, low word first. */
  function SpeakerIdsOfWords(w: seq<Word>, i: nat, n: nat): seq<nat>
    requires i + 2 * n <= |w|
  {
    seq(n, k requires 0 <= k < n => U64Of(w[i + 2 * k], w[i + 2 * k + 1]))
  }

  /**
   * Word offsets within a subframe: the scalars 0 to 7 (the time counter two
   * words), the ids 8 to 19, the output samples 20 to 275, the microphone
   * samples 276 to 1299, the speaker samples 1300 to 3347, the reserved
   * bytes 3348 to 3603.
   */
  function SubframeOfWords(d: seq<Byte>, w: seq<Word>, i: nat): AudioSubframe
    requires 4 * |w| <= |d| && i + 3604 <= |w|
  {
    AudioSubframe(
      w[i], w[i + 1], U64Of(w[i + 2], w[i + 3]), Int32Of(w[i + 4]), w[i + 5], w[i + 6], w[i + 7],
      SpeakerIdsOfWords(w, i + 8, 6),
      w[i + 20..i + 276], w[i + 276..i + 1300], w[i + 1300..i + 3348],
      d[4 * i + 13392..4 * i + 14416])
  }

  /** The first n subframes, 3604 words apart from word 4 on. */
  function SubframesOfWords(d: seq<Byte>, w: seq<Word>, n: nat): (r: seq<AudioSubframe>)
    requires 4 * |w| <= |d| && 4 + 3604 * n <= |w|
    ensures |r| == n
  {
    seq(n, k requires 0 <= k < n => SubframeOfWords(d, w, 4 + 3604 * k))
  }

  /**
   * FromByteArray. A payload too short for the header or for the subframes
   * the header announces makes a read throw EndOfStreamException; bytes
   * past the last subframe are not read.
   */
  function AudioFrameAt(d: seq<Byte>): Result<AudioFrame, XefDecoding.Fault>
  {
    if |d| < 16 then Failure(XefDecoding.EndOfStream)
    else
      var count := U32At(d, 4);
      if |d| < 16 + 14416 * count then Failure(XefDecoding.EndOfStream)
      else
        var w := WordsAt(d, 0, 4 + 3604 * count);
        Success(AudioFrame(U32At(d, 0), count, U32At(d, 8), U32At(d, 12), SubframesOfWords(d, w, count)))
  }

  // ----- what a decoded record is -----

  /** A subframe as FromReader can produce it: arrays of the constructor's lengths, fields in range. */
  predicate ValidSubframe(s: AudioSubframe)
  {
    s.timeCounter < 0x1_0000_0000_0000_0000 && Int32Min <= s.beamMode <= Int32Max
    && |s.speakerTrackingIds| == SpeakerTrackingIdsSize
    && (forall k :: 0 <= k < |s.speakerTrackingIds| ==> s.speakerTrackingIds[k] < 0x1_0000_0000_0000_0000)
    && |s.outBuffer| == OutBufferSize && |s.micBuffer| == MicBufferSize && |s.spkBuffer| == SpkBufferSize
    && |s.reservedByteArray| == ReservedSize
  }

  /** SubFrames has SubFrameCount entries, each a valid subframe. */
  predicate ValidFrame(f: AudioFrame)
  {
    |f.subFrames| == f.subFrameCount && forall k :: 0 <= k < |f.subFrames| ==> ValidSubframe(f.subFrames[k])
  }

  // ----- encoding, the decoder's inverse -----

  function ScalarWords(s: AudioSubframe): (r: seq<Word>)
    requires ValidSubframe(s)
    ensures |r| == 8
  {
    var t := U64Words(s.timeCounter);
    [s.subFrameNumber, s.eventBitField, t[0], t[1], WordOf(s.beamMode), s.beamAngle, s.beamAngleConfidence,
     s.speakerTrackingIdCount]
  }

  function IdRuns(ids: seq<nat>): (r: seq<seq<Word>>)
    requires forall k :: 0 <= k < |ids| ==> ids[k] < 0x1_0000_0000_0000_0000
    ensures |r| == |ids| && forall k :: 0 <= k < |ids| ==> |r[k]| == 2
  {
    seq(|ids|, k requires 0 <= k < |ids| => U64Words(ids[k]))
  }

  /** The ids, two words each. */
  function SpeakerIdWords(ids: seq<nat>): (r: seq<Word>)
    requires forall k :: 0 <= k < |ids| ==> ids[k] < 0x1_0000_0000_0000_0000
    ensures |r| == 2 * |ids|
  {
    FlattenLength(IdRuns(ids), 2);
    Flatten(IdRuns(ids))
  }

  /** The reserved bytes as the words they occupy. */
  function ReservedWords(b: seq<Byte>): (r: seq<Word>)
    requires |b| == ReservedSize
    ensures |r| == 256
  {
    WordsAt(b, 0, 256)
  }

  function SubframeWords(s: AudioSubframe): (r: seq<Word>)
    requires ValidSubframe(s)
    ensures |r| == SubframeWordCount
  {
    ScalarWords(s)
    + (SpeakerIdWords(s.speakerTrackingIds)
    + (s.outBuffer
    + (s.micBuffer
    + (s.spkBuffer
    + ReservedWords(s.reservedByteArray)))))
  }

  function SubframeRuns(ss: seq<AudioSubframe>): (r: seq<seq<Word>>)
    requires forall k :: 0 <= k < |ss| ==> ValidSubframe(ss[k])
    ensures |r| == |ss| && forall k :: 0 <= k < |ss| ==> |r[k]| == SubframeWordCount
  {
    seq(|ss|, k requires 0 <= k < |ss| => SubframeWords(ss[k]))
  }

  function FrameWords(f: AudioFrame): (r: seq<Word>)
    requires ValidFrame(f)
    ensures |r| == 4 + 3604 * |f.subFrames|
  {
    FlattenLength(SubframeRuns(f.subFrames), 3604);
    [f.version, f.subFrameCount, f.subFramesAllocated, f.reserved] + Flatten(SubframeRuns(f.subFrames))
  }

  /** A frame as the bytes of an event payload. */
  function FrameBytes(f: AudioFrame): (r: seq<Byte>)
    requires ValidFrame(f)
    ensures |r| == 16 + 14416 * |f.subFrames|
  {
    WordBytes(FrameWords(f))
  }

  // ----- properties -----

  /** A payload decodes exactly when it holds the header and every subframe the header announces. */
  lemma DecodesIff(d: seq<Byte>)
    ensures AudioFrameAt(d).Success? <==> 16 <= |d| && 16 + SubframeSize * U32At(d, 4) <= |d|
    ensures AudioFrameAt(d).Failure? ==> AudioFrameAt(d).error == XefDecoding.EndOfStream
  {
  }

  /** Whatever the words, a decoded subframe has the constructor's array lengths. */
  lemma DecodedSubframeValid(d: seq<Byte>, w: seq<Word>, i: nat)
    requires 4 * |w| <= |d| && i + 3604 <= |w|
    ensures ValidSubframe(SubframeOfWords(d, w, i))
  {
  }

  /** A decoded frame has SubFrameCount subframes, each with the constructor's array lengths. */
  lemma DecodedFrameValid(d: seq<Byte>)
    requires AudioFrameAt(d).Success?
    ensures ValidFrame(AudioFrameAt(d).value)
  {
    var count := U32At(d, 4);
    DecodedSubframesValid(d, WordsAt(d, 0, 4 + 3604 * count), count);
  }

  lemma DecodedSubframesValid(d: seq<Byte>, w: seq<Word>, n: nat)
    requires 4 * |w| <= |d| && 4 + 3604 * n <= |w|
    ensures forall k :: 0 <= k < n ==> ValidSubframe(SubframesOfWords(d, w, n)[k])
  {
    forall k | 0 <= k < n
      ensures ValidSubframe(SubframesOfWords(d, w, n)[k])
    {
      DecodedSubframeValid(d, w, 4 + 3604 * k);
    }
  }

  /**
   * All six speaker tracking ids are read whatever SpeakerTrackingIdCount
   * says: changing the count word changes the count field and nothing else.
   */
  lemma SpeakerIdsIgnoreCount(d: seq<Byte>, w: seq<Word>, i: nat, x: Word)
    requires 4 * |w| <= |d| && i + 3604 <= |w|
    ensures SubframeOfWords(d, w[i + 7 := x], i) == SubframeOfWords(d, w, i).(speakerTrackingIdCount := x)
  {
    var v := w[i + 7 := x];
    assert v[i + 20..i + 276] == w[i + 20..i + 276];
    assert v[i + 276..i + 1300] == w[i + 276..i + 1300];
    assert v[i + 1300..i + 3348] == w[i + 1300..i + 3348];
    assert SpeakerIdsOfWords(v, i + 8, 6) == SpeakerIdsOfWords(w, i + 8, 6);
  }

  /** Where the parts of a subframe's words sit. */
  lemma SubframePartsPlaced(w: seq<Word>, i: nat, s: AudioSubframe)
    requires ValidSubframe(s) && Placed(w, i, SubframeWords(s))
    ensures Placed(w, i, ScalarWords(s)) && Placed(w, i + 8, SpeakerIdWords(s.speakerTrackingIds))
    ensures Placed(w, i + 20, s.outBuffer) && Placed(w, i + 276, s.micBuffer)
    ensures Placed(w, i + 1300, s.spkBuffer) && Placed(w, i + 3348, ReservedWords(s.reservedByteArray))
  {
    var t4 := s.spkBuffer + ReservedWords(s.reservedByteArray);
    var t3 := s.micBuffer + t4;
    var t2 := s.outBuffer + t3;
    var t1 := SpeakerIdWords(s.speakerTrackingIds) + t2;
    PlacedSplit(w, i, ScalarWords(s), t1);
    PlacedSplit(w, i + 8, SpeakerIdWords(s.speakerTrackingIds), t2);
    PlacedSplit(w, i + 20, s.outBuffer, t3);
    PlacedSplit(w, i + 276, s.micBuffer, t4);
    PlacedSplit(w, i + 1300, s.spkBuffer, ReservedWords(s.reservedByteArray));
  }

  lemma ScalarsBack(w: seq<Word>, i: nat, s: AudioSubframe)
    requires ValidSubframe(s) && Placed(w, i, ScalarWords(s))
    ensures w[i] == s.subFrameNumber && w[i + 1] == s.eventBitField
    ensures U64Of(w[i + 2], w[i + 3]) == s.timeCounter && Int32Of(w[i + 4]) == s.beamMode
    ensures w[i + 5] == s.beamAngle && w[i + 6] == s.beamAngleConfidence && w[i + 7] == s.speakerTrackingIdCount
  {
    var sw := ScalarWords(s);
    assert w[i] == sw[0] && w[i + 1] == sw[1] && w[i + 2] == sw[2] && w[i + 3] == sw[3];
    assert w[i + 4] == sw[4] && w[i + 5] == sw[5] && w[i + 6] == sw[6] && w[i + 7] == sw[7];
  }

  lemma SpeakerIdsBack(w: seq<Word>, i: nat, ids: seq<nat>)
    requires |ids| == 6 && forall k :: 0 <= k < |ids| ==> ids[k] < 0x1_0000_0000_0000_0000
    requires Placed(w, i, SpeakerIdWords(ids))
    ensures SpeakerIdsOfWords(w, i, 6) == ids
  {
    forall k | 0 <= k < 6
      ensures U64Of(w[i + 2 * k], w[i + 2 * k + 1]) == ids[k]
    {
      RunPlaced(w, i, IdRuns(ids), 2, k);
      assert w[i + 2 * k + 1] == U64Words(ids[k])[1];
    }
  }

  /** The reserved bytes of a subframe sit in the encoding where its reserved words do. */
  lemma ReservedBack(w: seq<Word>, j: nat, b: seq<Byte>)
    requires |b| == ReservedSize && Placed(w, j, ReservedWords(b))
    ensures WordBytes(w)[4 * j..4 * j + 1024] == b
  {
    PlacedSlice(w, j, ReservedWords(b));
    WordBytesRange(w, j, j + 256);
    WordBytesOfWordsAt(b, 256);
  }

  /** A subframe's words, wherever they sit in an encoding, decode back to the subframe. */
  lemma SubframeBack(w: seq<Word>, i: nat, s: AudioSubframe)
    requires ValidSubframe(s) && Placed(w, i, SubframeWords(s))
    ensures SubframeOfWords(WordBytes(w), w, i) == s
  {
    SubframePartsPlaced(w, i, s);
    ScalarsBack(w, i, s);
    SpeakerIdsBack(w, i + 8, s.speakerTrackingIds);
    PlacedSlice(w, i + 20, s.outBuffer);
    PlacedSlice(w, i + 276, s.micBuffer);
    PlacedSlice(w, i + 1300, s.spkBuffer);
    ReservedBack(w, i + 3348, s.reservedByteArray);
  }

  /** The subframes of an encoded frame sit from word 4 on. */
  lemma FrameRunsPlaced(f: AudioFrame)
    requires ValidFrame(f)
    ensures Placed(FrameWords(f), 4, Flatten(SubframeRuns(f.subFrames)))
  {
    var w := FrameWords(f);
    assert Placed(w, 0, w);
    PlacedSplit(w, 0, [f.version, f.subFrameCount, f.subFramesAllocated, f.reserved], Flatten(SubframeRuns(f.subFrames)));
  }

  lemma FrameSubframePlaced(f: AudioFrame, k: nat)
    requires ValidFrame(f) && k < |f.subFrames|
    ensures Placed(FrameWords(f), 4 + 3604 * k, SubframeWords(f.subFrames[k]))
  {
    var runs := SubframeRuns(f.subFrames);
    FrameRunsPlaced(f);
    RunPlaced(FrameWords(f), 4, runs, 3604, k);
    assert runs[k] == SubframeWords(f.subFrames[k]);
  }

  /** Subframe k of an encoded frame decodes back to subframe k. */
  lemma FrameSubframeBack(f: AudioFrame, k: nat)
    requires ValidFrame(f) && k < |f.subFrames|
    ensures SubframeOfWords(FrameBytes(f), FrameWords(f), 4 + 3604 * k) == f.subFrames[k]
  {
    FrameSubframePlaced(f, k);
    SubframeBack(FrameWords(f), 4 + 3604 * k, f.subFrames[k]);
  }

  /** The header words of an encoded frame read back. */
  lemma FrameHeaderBack(f: AudioFrame)
    requires ValidFrame(f)
    ensures U32At(FrameBytes(f), 0) == f.version && U32At(FrameBytes(f), 4) == f.subFrameCount
    ensures U32At(FrameBytes(f), 8) == f.subFramesAllocated && U32At(FrameBytes(f), 12) == f.reserved
  {
    var w := FrameWords(f);
    WordsOfWordBytes(w);
    WordAt(FrameBytes(f), 0, |w|, 0);
    WordAt(FrameBytes(f), 0, |w|, 1);
    WordAt(FrameBytes(f), 0, |w|, 2);
    WordAt(FrameBytes(f), 0, |w|, 3);
  }

  /** Decoding the bytes of any frame gives the frame back: the layout loses nothing. */
  lemma FrameRoundTrip(f: AudioFrame)
    requires ValidFrame(f)
    ensures AudioFrameAt(FrameBytes(f)) == Success(f)
  {
    var d := FrameBytes(f);
    var w := FrameWords(f);
    var n := |f.subFrames|;
    FrameHeaderBack(f);
    WordsOfWordBytes(w);
    assert WordsAt(d, 0, 4 + 3604 * n) == w;
    forall k | 0 <= k < n
      ensures SubframesOfWords(d, w, n)[k] == f.subFrames[k]
    {
      FrameSubframeBack(f, k);
    }
    assert SubframesOfWords(d, w, n) == f.subFrames;
  }

  // ----- the readers: FromReader and FromByteArray over a BinaryReader -----

  /** XEFAudioSubframe.FromReader. */
  method ReadSubframe(reader: BinaryReader, ghost w: seq<Word>, ghost i: nat) returns (s: AudioSubframe)
    requires reader.Valid() && WordsOf(reader.data, w) && reader.position == 4 * i && i + 3604 <= |w|
    modifies reader
    ensures reader.Valid() && reader.position == old(reader.position) + SubframeSize
    ensures 4 * |w| <= |reader.data| && s == SubframeOfWords(reader.data, w, i)
  {
    var subFrameNumber := ReadUInt32At(reader, w, i);
    var eventBitField := ReadUInt32At(reader, w, i + 1);
    var timeCounter := ReadUInt64At(reader, w, i + 2);
    var beamMode := ReadInt32At(reader, w, i + 4);
    var beamAngle := ReadSingleAt(reader, w, i + 5);
    var beamAngleConfidence := ReadSingleAt(reader, w, i + 6);
    var speakerTrackingIdCount := ReadUInt32At(reader, w, i + 7);
    var speakerTrackingIds := ReadSpeakerTrackingIds(reader, w, i + 8);
    var outBuffer := ReadSingles(reader, w, i + 20, OutBufferSize);
    var micBuffer := ReadSingles(reader, w, i + 276, MicBufferSize);
    var spkBuffer := ReadSingles(reader, w, i + 1300, SpkBufferSize);
    var reservedByteArray := ReadReserved(reader, ReservedSize);
    s := AudioSubframe(subFrameNumber, eventBitField, timeCounter, beamMode, beamAngle, beamAngleConfidence,
                       speakerTrackingIdCount, speakerTrackingIds, outBuffer, micBuffer, spkBuffer, reservedByteArray);
  }

  /** The loop over SpeakerTrackingIds: all six slots, whatever the count field says. */
  method ReadSpeakerTrackingIds(reader: BinaryReader, ghost w: seq<Word>, ghost i: nat) returns (ids: seq<nat>)
    requires reader.Valid() && WordsOf(reader.data, w) && reader.position == 4 * i && i + 12 <= |w|
    modifies reader
    ensures reader.Valid() && reader.position == old(reader.position) + 48
    ensures ids == SpeakerIdsOfWords(w, i, 6)
  {
    var a := new nat[SpeakerTrackingIdsSize];
    for j := 0 to a.Length
      invariant reader.Valid() && reader.position == 4 * i + 8 * j
      invariant forall k :: 0 <= k < j ==> a[k] == U64Of(w[i + 2 * k], w[i + 2 * k + 1])
    {
      a[j] := ReadUInt64At(reader, w, i + 2 * j);
    }
    ids := a[..];
  }

  /** A loop over OutBuffer, MicBuffer or SpkBuffer: n floats read into a fresh array. */
  method ReadSingles(reader: BinaryReader, ghost w: seq<Word>, ghost i: nat, n: nat) returns (buffer: seq<Word>)
    requires reader.Valid() && WordsOf(reader.data, w) && reader.position == 4 * i && i + n <= |w|
    modifies reader
    ensures reader.Valid() && reader.position == old(reader.position) + 4 * n
    ensures buffer == w[i..i + n]
  {
    var a := new Word[n];
    for j := 0 to n
      invariant reader.Valid() && reader.position == 4 * i + 4 * j
      invariant forall k :: 0 <= k < j ==> a[k] == w[i + k]
    {
      a[j] := ReadSingleAt(reader, w, i + j);
    }
    buffer := a[..];
  }

  /** The loop over ReservedByteArray: n bytes read one at a time. */
  method ReadReserved(reader: BinaryReader, n: nat) returns (bytes: seq<Byte>)
    requires reader.Valid() && reader.position + n <= |reader.data|
    modifies reader
    ensures reader.Valid() && reader.position == old(reader.position) + n
    ensures bytes == reader.data[old(reader.position)..old(reader.position) + n]
  {
    ghost var p := reader.position;
    var a := new Byte[n];
    for j := 0 to n
      invariant reader.Valid() && reader.position == p + j
      invariant forall k :: 0 <= k < j ==> a[k] == reader.data[p + k]
    {
      a[j] := reader.ReadByte();
    }
    bytes := a[..];
  }

  /**
   * XEFAudioFrame.FromByteArray and XEFAudioData.FromByteArray. The header's
   * four uints are read first; a payload too short for the subframes the
   * header announces fails as the read that runs out would throw.
   */
  method FromByteArray(data: seq<Byte>) returns (res: Result<AudioFrame, XefDecoding.Fault>)
    ensures res == AudioFrameAt(data)
  {
    if |data| < HeaderSize {
      return Failure(XefDecoding.EndOfStream);
    }
    var reader := new BinaryReader(data);
    var version := reader.ReadUInt32();
    var subFrameCount := reader.ReadUInt32();
    var subFramesAllocated := reader.ReadUInt32();
    var reserved := reader.ReadUInt32();
    var count: nat := subFrameCount;
    if |data| < 16 + 14416 * count {
      return Failure(XefDecoding.EndOfStream);
    }
    WordsAtWordsOf(data, 4 + 3604 * count);
    var subFrames := ReadSubframes(reader, WordsAt(data, 0, 4 + 3604 * count), count);
    res := Success(AudioFrame(version, subFrameCount, subFramesAllocated, reserved, subFrames));
  }

  /** The for loop filling SubFrames, an array of SubFrameCount slots, in order. */
  method ReadSubframes(reader: BinaryReader, ghost w: seq<Word>, count: nat) returns (subFrames: seq<AudioSubframe>)
    requires reader.Valid() && WordsOf(reader.data, w) && reader.position == 16 && |w| == 4 + 3604 * count
    modifies reader
    ensures reader.Valid() && reader.position == 16 + SubframeSize * count
    ensures 4 * |w| <= |reader.data| && subFrames == SubframesOfWords(reader.data, w, count)
  {
    var a := new AudioSubframe[count];
    for k := 0 to count
      invariant reader.Valid() && reader.position == 16 + 14416 * k
      invariant 4 * |w| <= |reader.data|
      invariant forall j :: 0 <= j < k ==> a[j] == SubframeOfWords(reader.data, w, 4 + 3604 * j)
    {
      var s := ReadSubframe(reader, w, 4 + 3604 * k);
      a[k] := s;
    }
    subFrames := a[..];
  }
}
