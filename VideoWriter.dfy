/**
 * VideoWriter: raw frames piped to an ffmpeg encoder at a fixed frame rate.
 * Time is kept in TimeSpan ticks (10,000,000 per second); frame n starts at
 * FrameToTime(n) = n * 10,000,000 / Framerate, truncated. A timed frame that
 * is more than a frame late is dropped, and a gap of more than a frame is
 * filled by repeating the last frame, so every frame is written within one
 * frame duration of its timestamp.
 */
module VideoOutput {
  import opened Bytes
  import opened Wrappers

  const TicksPerSecond: nat := 10000000

  datatype FrameFormat = RGB24 | BGR24 | YUV444 | YUV422 | YUV420 | YUYV422 | GRAY8 | GRAY16

  datatype VideoCodec = H264 | XVID | FLV | MPEG4 | WMV2 | YUV | RGB

  /** The FormatNames table: ffmpeg's name for each pixel format. */
  function FormatName(f: FrameFormat): (r: string)
    ensures r != [] && NoDashB(r)
  {
    match f
    case RGB24 => "rgb24"
    case BGR24 => "bgr24"
    case YUV444 => "yuv444p"
    case YUV422 => "yuv422p"
    case YUV420 => "yuv420p"
    case YUYV422 => "yuyv422"
    case GRAY8 => "gray"
    case GRAY16 => "gray16le"
  }

  /** The CodecNames table: ffmpeg's encoder for each codec. */
  function CodecName(c: VideoCodec): (r: string)
    ensures r != [] && NoDashB(r)
  {
    match c
    case H264 => "libx264"
    case XVID => "libxvid"
    case FLV => "flv"
    case MPEG4 => "mpeg4"
    case WMV2 => "wmv2"
    case YUV => "yuv4"
    case RGB => "r210"
  }

  /** No two pixel formats share a name, and no two codecs an encoder. */
  lemma NamesDistinct(f: FrameFormat, g: FrameFormat, c: VideoCodec, d: VideoCodec)
    ensures FormatName(f) == FormatName(g) ==> f == g
    ensures CodecName(c) == CodecName(d) ==> c == d
  {
    if FormatName(f) == FormatName(g) {
      assert FormatName(f)[|FormatName(f)| - 1] == FormatName(g)[|FormatName(g)| - 1];
      assert FormatName(f)[..3] == FormatName(g)[..3];
    }
    if CodecName(c) == CodecName(d) {
      assert CodecName(c)[|CodecName(c)| - 1] == CodecName(d)[|CodecName(d)| - 1];
      assert CodecName(c)[..3] == CodecName(d)[..3];
    }
  }

  // ---------------------------------------------------------------------
  // Integers as the command line prints them (int.ToString)
  // ---------------------------------------------------------------------

  predicate IsDigit(c: char)
  {
    '0' <= c <= '9'
  }

  predicate AllDigits(s: string)
  {
    forall i :: 0 <= i < |s| ==> IsDigit(s[i])
  }

  function DigitChar(d: nat): (c: char)
    requires d < 10
    ensures IsDigit(c) && c as int - '0' as int == d
  {
    ('0' as int + d) as char
  }

  /** The decimal digits of n, most significant first, with no leading zero. */
  function Digits(n: nat): (r: string)
    ensures r != [] && AllDigits(r)
    ensures |r| > 1 ==> r[0] != '0'
    decreases n
  {
    if n < 10 then [DigitChar(n)] else Digits(n / 10) + [DigitChar(n % 10)]
  }

  /** The value of a run of decimal digits. */
  function DigitsValue(s: string): nat
    requires AllDigits(s)
  {
    if s == [] then 0 else 10 * DigitsValue(s[..|s| - 1]) + (s[|s| - 1] as int - '0' as int)
  }

  /** Reading the digits back gives the number. */
  lemma {:induction false} DigitsRoundTrip(n: nat)
    ensures DigitsValue(Digits(n)) == n
    decreases n
  {
    if n >= 10 {
      DigitsRoundTrip(n / 10);
      var s := Digits(n);
      assert s[..|s| - 1] == Digits(n / 10);
    }
  }

  /** int.ToString(): a minus sign before the digits of a negative number. */
  function Decimal(x: int): (r: string)
    ensures r != [] && NoDashB(r)
    ensures r[0] == '-' <==> x < 0
  {
    if x < 0 then "-" + Digits(-x) else Digits(x)
  }

  /** The number a decimal string denotes, when it is one. */
  function ParseDecimal(s: string): Option<int>
  {
    if s != [] && s[0] == '-' && |s| > 1 && AllDigits(s[1..]) then Some(-(DigitsValue(s[1..]) as int))
    else if s != [] && AllDigits(s) then Some(DigitsValue(s))
    else None
  }

  /** The printed number parses back to itself. */
  lemma DecimalRoundTrip(x: int)
    ensures ParseDecimal(Decimal(x)) == Some(x)
  {
    if x < 0 {
      DigitsRoundTrip(-x);
      assert Decimal(x)[1..] == Digits(-x);
    } else {
      DigitsRoundTrip(x);
    }
  }

  // ---------------------------------------------------------------------
  // The encoder's command line
  // ---------------------------------------------------------------------

  /** Whether "-b" starts at position i of s. */
  predicate DashBAt(s: string, i: int)
  {
    0 <= i && i + 1 < |s| && s[i] == '-' && s[i + 1] == 'b'
  }

  /** s holds no "-b", so no "-b:v" option either. */
  ghost predicate NoDashB(s: string)
  {
    forall i :: !DashBAt(s, i)
  }

  /** Whether the option "-b:v " starts at position i of s. */
  predicate BitrateOptionAt(s: string, i: int)
  {
    0 <= i && i + 5 <= |s| && s[i..i + 5] == "-b:v "
  }

  /** Whether the option "-b:v " appears in s. */
  ghost predicate HasBitrateOption(s: string)
  {
    exists i :: BitrateOptionAt(s, i)
  }

  lemma NoDashBAppend(a: string, b: string)
    requires NoDashB(a) && NoDashB(b)
    requires a != [] && b != [] ==> !(a[|a| - 1] == '-' && b[0] == 'b')
    ensures NoDashB(a + b)
  {
    forall i
      ensures !DashBAt(a + b, i)
    {
      if 0 <= i && i + 1 < |a| {
        assert !DashBAt(a, i);
      } else if i >= |a| {
        assert !DashBAt(b, i - |a|);
      }
    }
  }

  /** The options before the bitrate: input format, size, rate and encoder. */
  function ArgumentsHead(inputFormat: FrameFormat, outputFormat: VideoCodec,
                         width: int, height: int, framerate: int): string
  {
    "-v quiet -stats -f rawvideo -pixel_format " + FormatName(inputFormat)
    + " -video_size " + Decimal(width) + "x" + Decimal(height)
    + " -framerate " + Decimal(framerate)
    + " -i - -c:v " + CodecName(outputFormat) + " "
  }

  lemma LiteralNoDashB(q: string)
    requires forall i :: 0 <= i < |q| ==> q[i] != 'b'
    ensures NoDashB(q)
  {
    forall i
      ensures !DashBAt(q, i)
    {
    }
  }

  /** The literal parts of the command line hold no "b" at all, so no "-b". */
  lemma LiteralsNoDashB()
    ensures NoDashB("-v quiet -stats -f rawvideo -pixel_format ") && NoDashB(" -video_size ")
    ensures NoDashB("x") && NoDashB(" -framerate ") && NoDashB(" -i - -c:v ") && NoDashB(" ")
    ensures NoDashB("-y \"") && NoDashB("\"")
  {
    LiteralNoDashB("-v quiet -stats -f rawvideo -pixel_format ");
    LiteralNoDashB(" -video_size ");
    LiteralNoDashB("x");
    LiteralNoDashB(" -framerate ");
    LiteralNoDashB(" -i - -c:v ");
    LiteralNoDashB(" ");
    LiteralNoDashB("-y \"");
    LiteralNoDashB("\"");
  }

  /** The head holds no "-b" and ends in a space. */
  lemma HeadNoDashB(inputFormat: FrameFormat, outputFormat: VideoCodec, width: int, height: int, framerate: int)
    ensures var h := ArgumentsHead(inputFormat, outputFormat, width, height, framerate);
      h != [] && NoDashB(h) && h[|h| - 1] == ' '
  {
    var p0 := "-v quiet -stats -f rawvideo -pixel_format ";
    var p1 := p0 + FormatName(inputFormat);
    var p2 := p1 + " -video_size ";
    var p3 := p2 + Decimal(width);
    var p4 := p3 + "x";
    var p5 := p4 + Decimal(height);
    var p6 := p5 + " -framerate ";
    var p7 := p6 + Decimal(framerate);
    var p8 := p7 + " -i - -c:v ";
    var p9 := p8 + CodecName(outputFormat);
    LiteralsNoDashB();
    NoDashBAppend(p0, FormatName(inputFormat));
    NoDashBAppend(p1, " -video_size ");
    NoDashBAppend(p2, Decimal(width));
    NoDashBAppend(p3, "x");
    NoDashBAppend(p4, Decimal(height));
    NoDashBAppend(p5, " -framerate ");
    NoDashBAppend(p6, Decimal(framerate));
    NoDashBAppend(p7, " -i - -c:v ");
    NoDashBAppend(p8, CodecName(outputFormat));
    NoDashBAppend(p9, " ");
  }

  /** The bitrate option, present for a positive bitrate only. */
  function BitrateOption(bitrate: int): string
  {
    if bitrate > 0 then "-b:v " + Decimal(bitrate) + " " else ""
  }

  /** The output options: overwrite, then the quoted path. */
  function ArgumentsTail(path: string): string
  {
    "-y \"" + path + "\""
  }

  lemma TailNoDashB(path: string)
    requires NoDashB(path)
    ensures NoDashB(ArgumentsTail(path)) && ArgumentsTail(path)[0] == '-'
  {
    LiteralsNoDashB();
    NoDashBAppend("-y \"", path);
    NoDashBAppend("-y \"" + path, "\"");
  }

  /** The ffmpeg arguments the constructor builds. */
  function Arguments(path: string, inputFormat: FrameFormat, outputFormat: VideoCodec,
                     width: int, height: int, framerate: int, bitrate: int): string
  {
    ArgumentsHead(inputFormat, outputFormat, width, height, framerate) + BitrateOption(bitrate) + ArgumentsTail(path)
  }

  /**
   * For a path without "-b", the command line has a "-b:v " option exactly
   * when the bitrate is positive, and the bitrate is printed right after it
   * (DecimalRoundTrip: the printed number reads back as the bitrate).
   */
  lemma BitrateOptionIff(path: string, inputFormat: FrameFormat, outputFormat: VideoCodec,
                         width: int, height: int, framerate: int, bitrate: int)
    requires NoDashB(path)
    ensures var args := Arguments(path, inputFormat, outputFormat, width, height, framerate, bitrate);
      HasBitrateOption(args) <==> bitrate > 0
    ensures bitrate > 0 ==>
      var k := |ArgumentsHead(inputFormat, outputFormat, width, height, framerate)| + 5;
      var args := Arguments(path, inputFormat, outputFormat, width, height, framerate, bitrate);
      k + |Decimal(bitrate)| <= |args| && args[k - 5..k] == "-b:v "
      && args[k..k + |Decimal(bitrate)|] == Decimal(bitrate)
  {
    var head := ArgumentsHead(inputFormat, outputFormat, width, height, framerate);
    var tail := ArgumentsTail(path);
    HeadNoDashB(inputFormat, outputFormat, width, height, framerate);
    TailNoDashB(path);
    OptionIffBetween(head, bitrate, tail);
  }

  lemma OptionIffBetween(head: string, bitrate: int, tail: string)
    requires NoDashB(head) && NoDashB(tail) && tail != [] && tail[0] == '-'
    ensures var args, k := head + BitrateOption(bitrate) + tail, |head| + 5;
      (HasBitrateOption(args) <==> bitrate > 0)
      && (bitrate > 0 ==> k + |Decimal(bitrate)| <= |args| && args[k - 5..k] == "-b:v "
                          && args[k..k + |Decimal(bitrate)|] == Decimal(bitrate))
  {
    if bitrate > 0 {
      OptionBetween(head, Decimal(bitrate), tail);
    } else {
      NoDashBAppend(head, tail);
      assert head + BitrateOption(bitrate) + tail == head + tail;
      NoOptionWithoutDashB(head + tail);
    }
  }

  /** The option and its value, placed between a head and a tail. */
  lemma OptionBetween(head: string, d: string, tail: string)
    ensures var args, k := head + ("-b:v " + d + " ") + tail, |head| + 5;
      BitrateOptionAt(args, |head|) && k + |d| <= |args| && args[k - 5..k] == "-b:v " && args[k..k + |d|] == d
  {
    var args, k := head + ("-b:v " + d + " ") + tail, |head| + 5;
    assert args[k - 5..k] == "-b:v ";
    assert args[k..k + |d|] == d;
  }

  /** A string without "-b" has no "-b:v " option. */
  lemma NoOptionWithoutDashB(s: string)
    requires NoDashB(s)
    ensures !HasBitrateOption(s)
  {
    forall i
      ensures !BitrateOptionAt(s, i)
    {
      if 0 <= i && i + 5 <= |s| {
        assert !DashBAt(s, i);
        assert s[i..i + 5][0] == s[i] && s[i..i + 5][1] == s[i + 1];
      }
    }
  }

  // ---------------------------------------------------------------------
  // Frame times
  // ---------------------------------------------------------------------

  /**
   * FrameToTime: the start of frame n in ticks, n * 10,000,000 / framerate in
   * long arithmetic. For n >= 0 and a positive rate, C#'s truncating
   * division and Dafny's agree.
   */
  function FrameToTime(framerate: int, n: nat): int
    requires framerate > 0
  {
    n * TicksPerSecond / framerate
  }

  /** _frameDuration: FrameToTime(1). */
  function FrameDuration(framerate: int): int
    requires framerate > 0
  {
    FrameToTime(framerate, 1)
  }

  lemma DivAtLeast(x: int, m: int, q: int)
    requires m > 0 && m * q <= x
    ensures q <= x / m
  {
    if q > x / m {
      MulMonoInt(m, x / m + 1, q);
    }
  }

  lemma DivBelow(x: int, m: int, q: int)
    requires m > 0 && x < m * q
    ensures x / m < q
  {
    if x / m >= q {
      MulMonoInt(m, q, x / m);
    }
  }

  lemma MulMonoInt(m: int, a: int, b: int)
    requires m > 0 && a <= b
    ensures m * a <= m * b
  {
    assert m * b - m * a == m * (b - a);
  }

  /** FrameToTime(n) is the whole number of ticks within n frames: q * rate <= n * 10^7 < (q + 1) * rate. */
  lemma FrameToTimeBounds(framerate: int, n: nat)
    requires framerate > 0
    ensures 0 <= FrameToTime(framerate, n)
    ensures framerate * FrameToTime(framerate, n) <= n * TicksPerSecond < framerate * (FrameToTime(framerate, n) + 1)
  {
    var x, q := n * TicksPerSecond, FrameToTime(framerate, n);
    assert x == framerate * q + x % framerate;
    MulAdd(framerate, q, 1);
    DivAtLeast(x, framerate, 0);
  }

  /** Later frames do not start earlier. */
  lemma FrameToTimeMonotone(framerate: int, m: nat, n: nat)
    requires framerate > 0 && m <= n
    ensures FrameToTime(framerate, m) <= FrameToTime(framerate, n)
  {
    FrameToTimeBounds(framerate, m);
    MulMonoInt(TicksPerSecond, m, n);
    DivAtLeast(n * TicksPerSecond, framerate, FrameToTime(framerate, m));
  }

  /**
   * One more frame advances the time by the frame duration, or by one tick
   * more when the truncations fall apart.
   */
  lemma FrameToTimeStep(framerate: int, n: nat)
    requires framerate > 0
    ensures FrameToTime(framerate, n) + FrameDuration(framerate) <= FrameToTime(framerate, n + 1)
    ensures FrameToTime(framerate, n + 1) <= FrameToTime(framerate, n) + FrameDuration(framerate) + 1
  {
    var q, d := FrameToTime(framerate, n), FrameDuration(framerate);
    FrameToTimeBounds(framerate, n);
    FrameToTimeBounds(framerate, 1);
    assert (n + 1) * TicksPerSecond == n * TicksPerSecond + TicksPerSecond;
    MulAdd(framerate, q, d);
    DivAtLeast((n + 1) * TicksPerSecond, framerate, q + d);
    MulAdd(framerate, q + 1, d + 1);
    DivBelow((n + 1) * TicksPerSecond, framerate, q + d + 2);
  }

  /** While padding goes on at count n, n frames fall short of the timestamp, so the loop ends. */
  lemma PadBound(framerate: int, n: nat, timestamp: int)
    requires framerate > 0
    requires FrameToTime(framerate, n) + FrameDuration(framerate) < timestamp
    ensures n * TicksPerSecond < framerate * timestamp
  {
    FrameToTimeBounds(framerate, n);
    FrameToTimeBounds(framerate, 1);
    MulMonoInt(framerate, FrameToTime(framerate, n) + 1, timestamp);
  }

  /**
   * The number of times the padding loop repeats the last frame when it
   * starts at frame count n: it stops once n + k frames plus one frame
   * duration reach the timestamp.
   */
  function Pads(framerate: int, n: nat, timestamp: int): nat
    requires framerate > 0
    decreases framerate * timestamp - n * TicksPerSecond
  {
    if FrameToTime(framerate, n) + FrameDuration(framerate) < timestamp then
      PadBound(framerate, n, timestamp);
      1 + Pads(framerate, n + 1, timestamp)
    else 0
  }

  /**
   * Pads is the exact threshold: from count n on, frame j still falls more
   * than a frame short of the timestamp if and only if j < n + Pads.
   */
  lemma {:induction false} PadsThreshold(framerate: int, n: nat, timestamp: int, j: nat)
    requires framerate > 0 && n <= j
    ensures FrameToTime(framerate, j) + FrameDuration(framerate) < timestamp <==> j < n + Pads(framerate, n, timestamp)
    decreases framerate * timestamp - n * TicksPerSecond
  {
    if FrameToTime(framerate, n) + FrameDuration(framerate) < timestamp {
      PadBound(framerate, n, timestamp);
      if j > n {
        PadsThreshold(framerate, n + 1, timestamp, j);
      }
    } else {
      FrameToTimeMonotone(framerate, n, j);
    }
  }

  /** n copies of a frame. */
  function Repeat(frame: seq<Byte>, n: nat): (r: seq<seq<Byte>>)
    ensures |r| == n && forall i :: 0 <= i < n ==> r[i] == frame
  {
    seq(n, i => frame)
  }

  /** Whether a timed frame is dropped: a frame has been written, and the timestamp is more than a frame behind. */
  predicate Late(framerate: int, written: seq<seq<Byte>>, timestamp: int)
    requires framerate > 0
  {
    written != [] && timestamp + FrameDuration(framerate) < FrameToTime(framerate, |written|)
  }

  /**
   * The frames WriteFrame(data, timestamp) sends after those already
   * written: the first frame at once; nothing for a late one; otherwise
   * copies of the last frame up to the timestamp, then the frame.
   */
  function Paced(framerate: int, written: seq<seq<Byte>>, data: seq<Byte>, timestamp: int): seq<seq<Byte>>
    requires framerate > 0
  {
    if written == [] then [data]
    else if Late(framerate, written, timestamp) then []
    else Repeat(written[|written| - 1], Pads(framerate, |written|, timestamp)) + [data]
  }

  /**
   * A timed frame is written, after padding, unless it is late; when it is
   * written it is the last frame sent, the frames before it repeat the last
   * frame already written, and it starts within one frame duration of its
   * timestamp.
   */
  lemma PacedPlacement(framerate: int, written: seq<seq<Byte>>, data: seq<Byte>, timestamp: int)
    requires framerate > 0
    ensures var p := Paced(framerate, written, data, timestamp);
      (p == [] <==> Late(framerate, written, timestamp))
    ensures written == [] ==> Paced(framerate, written, data, timestamp) == [data]
    ensures written != [] && !Late(framerate, written, timestamp) ==>
      var p, d := Paced(framerate, written, data, timestamp), FrameDuration(framerate);
      var m := |written| + |p| - 1;
      p[|p| - 1] == data
      && (forall i :: 0 <= i < |p| - 1 ==> p[i] == written[|written| - 1])
      && timestamp - d <= FrameToTime(framerate, m) <= timestamp + d
  {
    var d := FrameDuration(framerate);
    if written != [] && !Late(framerate, written, timestamp) {
      var n := |written|;
      var k := Pads(framerate, n, timestamp);
      var m := n + k;
      PadsThreshold(framerate, n, timestamp, m);
      if k == 0 {
        assert timestamp <= FrameToTime(framerate, m) + d;
      } else {
        PadsThreshold(framerate, n, timestamp, m - 1);
        FrameToTimeStep(framerate, m - 1);
      }
    }
  }

  class VideoWriter {
    const path: string
    const inputFormat: FrameFormat
    const outputFormat: VideoCodec
    const width: int
    const height: int
    const framerate: int
    const bitrate: int
    /** The encoder process's arguments. */
    const arguments: string
    /** _frameDuration, in ticks. */
    const frameDuration: int
    var frameCount: nat
    /** _lastFrameData: null until the first frame. */
    var lastFrame: Option<seq<Byte>>
    /** The frames written to the encoder's input, in order. */
    var written: seq<seq<Byte>>
    var disposed: bool

    /** Duration: the time of FrameCount frames. */
    function Duration(): int
      reads this
      requires framerate > 0
    {
      FrameToTime(framerate, frameCount)
    }

    /** FrameCount counts the frames written, and the last of them is _lastFrameData. */
    ghost predicate Valid()
      reads this
    {
      framerate > 0 && frameDuration == FrameDuration(framerate) && frameCount == |written|
      && lastFrame == (if written == [] then None else Some(written[|written| - 1]))
    }

    constructor(path: string, inputFormat: FrameFormat, outputFormat: VideoCodec,
                width: int, height: int, framerate: int, bitrate: int)
      requires framerate > 0
      ensures Valid() && !disposed && written == [] && frameCount == 0
      ensures this.path == path && this.inputFormat == inputFormat && this.outputFormat == outputFormat
      ensures this.width == width && this.height == height && this.framerate == framerate && this.bitrate == bitrate
      ensures arguments == Arguments(path, inputFormat, outputFormat, width, height, framerate, bitrate)
    {
      this.path := path;
      this.inputFormat := inputFormat;
      this.outputFormat := outputFormat;
      this.width := width;
      this.height := height;
      this.framerate := framerate;
      this.bitrate := bitrate;
      arguments := Arguments(path, inputFormat, outputFormat, width, height, framerate, bitrate);
      frameDuration := FrameDuration(framerate);
      frameCount := 0;
      lastFrame := None;
      written := [];
      disposed := false;
    }

    /** The six-argument constructor: bitrate -1, so no bitrate option. */
    constructor WithoutBitrate(path: string, inputFormat: FrameFormat, outputFormat: VideoCodec,
                               width: int, height: int, framerate: int)
      requires framerate > 0
      ensures Valid() && !disposed && written == [] && frameCount == 0 && bitrate == -1
      ensures this.path == path && this.inputFormat == inputFormat && this.outputFormat == outputFormat
      ensures this.width == width && this.height == height && this.framerate == framerate
      ensures arguments == Arguments(path, inputFormat, outputFormat, width, height, framerate, -1)
    {
      this.path := path;
      this.inputFormat := inputFormat;
      this.outputFormat := outputFormat;
      this.width := width;
      this.height := height;
      this.framerate := framerate;
      bitrate := -1;
      arguments := Arguments(path, inputFormat, outputFormat, width, height, framerate, -1);
      frameDuration := FrameDuration(framerate);
      frameCount := 0;
      lastFrame := None;
      written := [];
      disposed := false;
    }

    /** WriteFrame(data): the frame is sent, becomes the last frame, and is counted. */
    method WriteFrame(data: seq<Byte>)
      requires Valid() && !disposed
      modifies this
      ensures Valid() && !disposed
      ensures written == old(written) + [data] && lastFrame == Some(data)
      ensures frameCount == old(frameCount) + 1
    {
      written := written + [data];
      lastFrame := Some(data);
      frameCount := frameCount + 1;
    }

    /**
     * WriteFrame(data, timestamp): the frames Paced describes are sent; the
     * frame count never decreases.
     */
    method WriteTimedFrame(data: seq<Byte>, timestamp: int)
      requires Valid() && !disposed
      modifies this
      ensures Valid() && !disposed
      ensures written == old(written) + Paced(framerate, old(written), data, timestamp)
      ensures frameCount >= old(frameCount)
    {
      if lastFrame.Some? {
        if timestamp + frameDuration < Duration() {
          return;
        }
        var last := lastFrame.value;
        ghost var n0, w0 := frameCount, written;
        while Duration() + frameDuration < timestamp
          invariant Valid() && !disposed && n0 <= frameCount && lastFrame == Some(last)
          invariant written == w0 + Repeat(last, frameCount - n0)
          invariant Pads(framerate, n0, timestamp) == frameCount - n0 + Pads(framerate, frameCount, timestamp)
          decreases framerate * timestamp - frameCount * TicksPerSecond
        {
          PadBound(framerate, frameCount, timestamp);
          WriteFrame(last);
        }
      }
      WriteFrame(data);
    }

    /** Dispose: the first call closes the encoder's input; the frames written stay as they are. */
    method Dispose()
      modifies this
      ensures disposed && written == old(written) && frameCount == old(frameCount) && lastFrame == old(lastFrame)
    {
      disposed := true;
    }
  }
}
