/**
 * The XEF record grammar as a pure function of the file's bytes and the
 * decoder's state. Both readers (XEFEventReader over a seekable file and
 * XEFEventStreamReader over a forward-only pipe) are proved to follow it.
 *
 * A file is a header (the stream count and the total data size at
 * STREAM_COUNT_ADDRESS) followed by framed records. Every record starts with
 * a 4-byte key (int16 stream index, int16 flags) and a 20-byte header
 * (int32 data size, int64 ticks, uint32 unknown, int32 full data size),
 * then an optional tag and the payload. The first record seen on an index
 * describes the stream, an unknown-sentinel index starts a record of
 * unknown length, and the index one past the reported count is the footer.
 */
module XefDecoding {
  import opened Wrappers
  import opened Bytes
  import opened DataConstants

  /** A record key: stream index and flags, both int16. */
  datatype Key = Key(index: int, flags: int)

  /** What a reader knows of a registered stream (an XEFStream's state). */
  datatype Channel = Channel(
    index: int,            // from the description's tag
    flags: int,
    tagSize: int,
    name: seq<Byte>,       // the UTF-16 name block, kept undecoded
    dataTypeId: Guid,
    semanticId: Guid,
    eventCount: int)

  /** A decoded data record (an XEFEvent's value). */
  datatype EventValue = EventValue(
    stream: Option<int>,              // registry key of EventStream; None when EventStream is null
    streamDataTypeId: Option<Guid>,   // EventStream.DataTypeId, which never changes after registration
    eventIndex: int,
    frameIndex: int,
    relativeTime: int,                // ticks
    fullDataSize: int,
    tagData: Option<seq<Byte>>,       // None when TagData is null
    eventData: seq<Byte>,
    unknown: nat)

  /** The exceptions that escape a reader's methods. */
  datatype Fault =
    | EndOfStream          // EndOfStreamException from a fixed-width read outside ReadDataEvent's catch
    | ArgumentOutOfRange   // ReadBytes with a negative count, BitConverter from a start index at or past
                           // the array's end, GetString with a count past the array's end
    | Argument             // BitConverter with too few bytes after its start index, Array.Copy from a too short array
    | ArgumentNull         // BitConverter on a null tag
    | NullReference        // a description whose name record could not be read
    | PlainException       // the System.Exception thrown on moving a forward-only stream backwards
    | Overflow             // a skip buffer whose doubled size does not fit in an int

  /** What a reader fixes when it opens a file. */
  datatype Source = Source(
    layout: Layout,
    input: seq<Byte>,
    checksLength: bool,        // the seekable reader also ends the stream when a record ends the file
    cachesPeek: bool,          // the stream reader answers a peek where the last one ended from its cache
    reportedStreams: int)      // _totalReportedStreams after the header correction

  /** What a reader's decoding methods change. */
  datatype DecoderState = DecoderState(
    pos: nat,                  // the logical cursor
    endOfStream: bool,
    streamError: bool,
    channels: map<int, Channel>)

  /**
   * A decoding step either returns a value or throws. Either way the new
   * state is known, and so is the last record ReadDataEvent decoded during
   * the step, if any (the stream reader's CurrentEvent).
   */
  datatype Outcome<+T> =
    | Returned(value: T, st: DecoderState, last: Option<EventValue>)
    | Threw(fault: Fault, st: DecoderState, last: Option<EventValue>)

  /** The outcome o of a step taken after earlier steps that last decoded l. */
  function After<T>(l: Option<EventValue>, o: Outcome<T>): (r: Outcome<T>)
    ensures r.Returned? == o.Returned? && r.st == o.st
    ensures r.Returned? ==> r.value == o.value
    ensures r.Threw? ==> r.fault == o.fault
    ensures r.last == Latest(l, o.last)
  {
    match o
    case Returned(v, s, l2) => Returned(v, s, Latest(l, l2))
    case Threw(f, s, l2) => Threw(f, s, Latest(l, l2))
  }

  // ----- header -----

  /**
   * The header's stream count as the reader keeps it: a raw 0 stands for
   * int.MaxValue, and the file counts one more stream than it holds.
   */
  function ReportedStreams(raw: int): int
  {
    Wrap32((if raw == 0 then Int32Max else raw) - 1)
  }

  /** The footer's index: one past the reported count, in int arithmetic. */
  function FooterIndex(reportedStreams: int): int
  {
    Wrap32(reportedStreams + 1)
  }

  /** A valid stream index, the unknown sentinel, or the footer. */
  predicate IsValidStreamIndex(src: Source, index: int)
  {
    (index > 0 && index <= src.reportedStreams)
    || index == src.layout.unknownRecordIndex
    || index == FooterIndex(src.reportedStreams)
  }

  // ----- framed records -----

  function KeyAt(input: seq<Byte>, p: nat): Key
    requires p + 4 <= |input|
  {
    Key(I16At(input, p), I16At(input, p + 2))
  }

  /** An IOException caught by ReadDataEvent: the cursor is at the end and both flags are set. */
  function IoFailure(src: Source, st: DecoderState): DecoderState
  {
    st.(pos := |src.input|, endOfStream := true, streamError := true)
  }

  /** The key and the four fixed fields that follow it. */
  datatype RecordHeader = RecordHeader(key: Key, dataSize: int, ticks: int, unknown: nat, fullDataSize: int)

  function HeaderAt(input: seq<Byte>, p: nat): RecordHeader
    requires p + 24 <= |input|
  {
    RecordHeader(KeyAt(input, p), I32At(input, p + 4), I64At(input, p + 8), U32At(input, p + 16), I32At(input, p + 20))
  }

  /** The tag length ReadDataEvent asks for on a key, or None when it reads no tag. */
  function TagRequest(src: Source, channels: map<int, Channel>, index: int): Option<nat>
  {
    if index in channels then
      (if channels[index].tagSize > 0 then Some(channels[index].tagSize as nat) else None)
    else Some(src.layout.defaultTagSize)
  }

  /** The tag read at p: TagSize bytes of a registered stream, EVENT_DEFAULT_TAG_SIZE otherwise. */
  function ReadTag(src: Source, channels: map<int, Channel>, index: int, p: nat): (tag: Option<seq<Byte>>)
    requires p <= |src.input|
    ensures p + TagLength(tag) <= |src.input|
  {
    var request := TagRequest(src, channels, index);
    if request.Some? then Some(Take(src.input, p, request.value)) else None
  }

  /**
   * What BitConverter.ToInt16 or ToInt32 throws reading width bytes from
   * start in an array of n bytes that does not hold them: a start index
   * outside the array is out of range, a start too near its end an
   * argument error.
   */
  function ConverterFault(n: nat, start: nat, width: nat): Fault
    requires n < start + width
  {
    if start >= n then ArgumentOutOfRange else Argument
  }

  /** The stream's tag is its frame number when it is 4 bytes long. */
  predicate TagIsFrameIndex(channels: map<int, Channel>, index: int)
  {
    index in channels && channels[index].tagSize == 4
  }

  function TagLength(tag: Option<seq<Byte>>): nat
  {
    if tag.Some? then |tag.value| else 0
  }

  /** The event a record makes: it takes its stream's count as its index. */
  function NewEvent(channels: map<int, Channel>, h: RecordHeader, tag: Option<seq<Byte>>, data: seq<Byte>): (e: EventValue)
    requires TagIsFrameIndex(channels, h.key.index) ==> TagLength(tag) >= 4
    ensures e.stream == (if h.key.index in channels then Some(h.key.index) else None)
    ensures e.streamDataTypeId == (if h.key.index in channels then Some(channels[h.key.index].dataTypeId) else None)
    ensures e.frameIndex == (if TagIsFrameIndex(channels, h.key.index) then I32At(tag.value, 0) else 0)
    ensures e.eventIndex == (if h.key.index in channels then channels[h.key.index].eventCount else 0)
    ensures e.tagData == tag && e.eventData == data
  {
    var registered := h.key.index in channels;
    EventValue(
      if registered then Some(h.key.index) else None,
      if registered then Some(channels[h.key.index].dataTypeId) else None,
      if registered then channels[h.key.index].eventCount else 0,
      if TagIsFrameIndex(channels, h.key.index) then I32At(tag.value, 0) else 0,
      h.ticks, h.fullDataSize, tag, data, h.unknown)
  }

  /** The registry after an event on index: its stream, if any, counted one more event. */
  function Counted(channels: map<int, Channel>, index: int): (r: map<int, Channel>)
    ensures r.Keys == channels.Keys
  {
    if index in channels then channels[index := channels[index].(eventCount := Wrap32(channels[index].eventCount + 1))]
    else channels
  }

  /** ReadDataEvent: one framed record at the cursor. */
  function ReadRecord(src: Source, st: DecoderState): (o: Outcome<Option<EventValue>>)
    requires st.pos <= |src.input|
    ensures st.pos <= o.st.pos <= |src.input|
    ensures o.st.channels.Keys == st.channels.Keys
    ensures o.last == (if o.Returned? then o.value else None)
    ensures o.Returned? && o.value.None? ==> o.st.endOfStream
    ensures o.Returned? && o.value.Some? ==> st.pos + 24 <= o.st.pos && !st.endOfStream
    ensures o.Returned? && o.value.Some? ==>
      var index := KeyAt(src.input, st.pos).index;
      o.value.value.stream == (if index in st.channels then Some(index) else None)
      && o.value.value.streamDataTypeId == (if index in st.channels then Some(st.channels[index].dataTypeId) else None)
  {
    if st.endOfStream then Returned(None, st, None)
    else if st.pos + 24 > |src.input| then Returned(None, IoFailure(src, st), None)
    else RecordAfterHeader(src, st, HeaderAt(src.input, st.pos))
  }

  /** The rest of a record once its header h is read: tag, payload, and the event. */
  function RecordAfterHeader(src: Source, st: DecoderState, h: RecordHeader): (o: Outcome<Option<EventValue>>)
    requires st.pos + 24 <= |src.input|
    ensures st.pos + 24 <= o.st.pos <= |src.input|
    ensures o.st.channels.Keys == st.channels.Keys
    ensures o.last == (if o.Returned? then o.value else None)
    ensures o.Returned? ==> o.value.Some?
    ensures o.Returned? ==>
      o.value.value.stream == (if h.key.index in st.channels then Some(h.key.index) else None)
      && o.value.value.streamDataTypeId == (if h.key.index in st.channels then Some(st.channels[h.key.index].dataTypeId) else None)
    ensures TagIsFrameIndex(st.channels, h.key.index) && |src.input| < st.pos + 28 ==>
      o.Threw? && o.fault == (if |src.input| == st.pos + 24 then ArgumentOutOfRange else Argument)
  {
    var tag := ReadTag(src, st.channels, h.key.index, st.pos + 24);
    if TagIsFrameIndex(st.channels, h.key.index) && TagLength(tag) < 4 then
      Threw(ConverterFault(TagLength(tag), 0, 4), st.(pos := st.pos + 24 + TagLength(tag)), None)
    else RecordAfterTag(src, st, h, tag)
  }

  /** The payload of a record whose header h and tag have been read, and the event it makes. */
  function RecordAfterTag(src: Source, st: DecoderState, h: RecordHeader, tag: Option<seq<Byte>>): (o: Outcome<Option<EventValue>>)
    requires st.pos + 24 + TagLength(tag) <= |src.input|
    requires TagIsFrameIndex(st.channels, h.key.index) ==> TagLength(tag) >= 4
    ensures st.pos + 24 <= o.st.pos <= |src.input|
    ensures o.st.channels.Keys == st.channels.Keys
    ensures o.last == (if o.Returned? then o.value else None)
    ensures o.Returned? ==> o.value.Some?
    ensures o.Returned? ==>
      o.value.value.stream == (if h.key.index in st.channels then Some(h.key.index) else None)
      && o.value.value.streamDataTypeId == (if h.key.index in st.channels then Some(st.channels[h.key.index].dataTypeId) else None)
  {
    var dataAt := st.pos + 24 + TagLength(tag);
    if h.dataSize < 0 then
      Threw(ArgumentOutOfRange, st.(pos := dataAt), None)
    else
      var data := Take(src.input, dataAt, h.dataSize);
      var end := dataAt + |data|;
      var ev := NewEvent(st.channels, h, tag, data);
      var st' := st.(pos := end, endOfStream := st.endOfStream || (src.checksLength && end == |src.input|),
                     channels := Counted(st.channels, h.key.index));
      Returned(Some(ev), st', Some(ev))
  }

  // ----- stream descriptions -----

  /** Whether every field ReadStreamDescription takes from the name record lies inside it. */
  predicate NameRecordFits(l: Layout, tag: seq<Byte>, data: seq<Byte>)
  {
    TagFieldsFit(l, tag) && l.nameSize <= |data| && l.tagSizeOffset + 2 <= |data|
  }

  /** Whether a name record's tag holds the index and flags words and the type Guid. */
  predicate TagFieldsFit(l: Layout, tag: seq<Byte>)
  {
    l.streamIndexOffset + 2 <= |tag| && l.streamFlagsOffset + 2 <= |tag| && l.typeIdOffset + 16 <= |tag|
  }

  /**
   * The first exception ReadStreamDescription's field reads throw on a name
   * record, in the order it reads them: the index and flags words and the
   * type Guid from the tag, then the name and the tag size from the payload.
   */
  function NameRecordFault(l: Layout, tag: Option<seq<Byte>>, data: seq<Byte>): (f: Option<Fault>)
    ensures f.None? <==> tag.Some? && NameRecordFits(l, tag.value, data)
    ensures tag.None? ==> f == Some(ArgumentNull)
    ensures tag.Some? && TagFieldsFit(l, tag.value) && |data| < l.nameSize ==> f == Some(ArgumentOutOfRange)
  {
    if tag.None? then Some(ArgumentNull)
    else if |tag.value| < l.streamIndexOffset + 2 then Some(ConverterFault(|tag.value|, l.streamIndexOffset, 2))
    else if |tag.value| < l.streamFlagsOffset + 2 then Some(ConverterFault(|tag.value|, l.streamFlagsOffset, 2))
    else if |tag.value| < l.typeIdOffset + 16 then Some(Argument)
    else if |data| < l.nameSize then Some(ArgumentOutOfRange)
    else if |data| < l.tagSizeOffset + 2 then Some(ConverterFault(|data|, l.tagSizeOffset, 2))
    else None
  }

  /** The compressed test on the signed flags word: (flags & FLAG_COMPRESSED) == FLAG_COMPRESSED. */
  predicate IsCompressed(l: Layout, flags: int)
    requires Int16Min <= flags <= Int16Max
  {
    var bits := (if flags < 0 then flags + 0x1_0000 else flags) as bv16;
    bits & l.flagCompressed == l.flagCompressed
  }

  /** Whether the name record also holds the semantic id ReadStreamDescription copies last. */
  predicate SemanticIdFits(l: Layout, data: seq<Byte>)
  {
    l.semanticIdOffset + 16 <= |data|
  }

  /** The stream a name record describes; its event count starts at 0. */
  function DescribedChannel(l: Layout, tag: seq<Byte>, data: seq<Byte>): (ch: Channel)
    requires NameRecordFits(l, tag, data) && SemanticIdFits(l, data)
    ensures ch.eventCount == 0
  {
    Channel(
      I16At(tag, l.streamIndexOffset),
      I16At(tag, l.streamFlagsOffset),
      I16At(data, l.tagSizeOffset),
      data[..l.nameSize],
      tag[l.typeIdOffset..l.typeIdOffset + 16],
      data[l.semanticIdOffset..l.semanticIdOffset + 16],
      0)
  }

  /** The ARC_STREAM_EXTRA_UNK_SIZE bytes a compressed stream has after its name record, read short at the end. */
  function SkipCompressedExtra(src: Source, s: DecoderState, tag: seq<Byte>): (s': DecoderState)
    requires s.pos <= |src.input| && src.layout.streamFlagsOffset + 2 <= |tag|
    ensures s.pos <= s'.pos <= |src.input| && s' == s.(pos := s'.pos)
  {
    if IsCompressed(src.layout, I16At(tag, src.layout.streamFlagsOffset)) then
      s.(pos := s.pos + |Take(src.input, s.pos, src.layout.compressedExtraSize)|)
    else s
  }

  /**
   * ReadStreamDescription: the name record, the extra bytes of a compressed
   * stream, then the record holding the type Guid, which is read and ignored.
   */
  function ReadDescription(src: Source, st: DecoderState): (o: Outcome<Channel>)
    requires st.pos <= |src.input|
    ensures st.pos <= o.st.pos <= |src.input|
    ensures o.st.channels.Keys == st.channels.Keys
    ensures o.Returned? ==> st.pos + 24 <= o.st.pos && o.value.eventCount == 0
  {
    DescriptionAfterName(src, st, ReadRecord(src, st))
  }

  /** The description once its name record has been read with outcome first. */
  function DescriptionAfterName(src: Source, st: DecoderState, first: Outcome<Option<EventValue>>): (o: Outcome<Channel>)
    requires st.pos <= first.st.pos <= |src.input| && first.st.channels.Keys == st.channels.Keys
    requires first.Returned? && first.value.Some? ==> st.pos + 24 <= first.st.pos
    ensures st.pos <= o.st.pos <= |src.input|
    ensures o.st.channels.Keys == st.channels.Keys
    ensures o.Returned? ==> st.pos + 24 <= o.st.pos && o.value.eventCount == 0
    ensures first.Returned? && first.value.Some? ==>
      var e := first.value.value;
      (e.tagData.None? ==> o == Threw(ArgumentNull, first.st, first.last))
      && (e.tagData.Some? && TagFieldsFit(src.layout, e.tagData.value) && |e.eventData| < src.layout.nameSize ==>
            o == Threw(ArgumentOutOfRange, first.st, first.last))
  {
    match first
    case Threw(f, s, l) => Threw(f, s, l)
    case Returned(None, s, l) => Threw(NullReference, s, l)
    case Returned(Some(nameEvent), s, l) =>
      var fault := NameRecordFault(src.layout, nameEvent.tagData, nameEvent.eventData);
      if fault.Some? then Threw(fault.value, s, l)
      else DescriptionFromName(src, s, l, nameEvent.tagData.value, nameEvent.eventData)
  }

  /**
   * The description from a name record that holds its fields, read up to s:
   * skip the extra bytes, read the Guid record, then take the semantic id.
   */
  function DescriptionFromName(src: Source, s: DecoderState, l: Option<EventValue>, tag: seq<Byte>, data: seq<Byte>): (o: Outcome<Channel>)
    requires s.pos <= |src.input| && NameRecordFits(src.layout, tag, data)
    ensures s.pos <= o.st.pos <= |src.input|
    ensures o.st.channels.Keys == s.channels.Keys
    ensures o.Returned? ==> o.value.eventCount == 0
  {
    var guidRecord := ReadRecord(src, SkipCompressedExtra(src, s, tag));
    var l2 := Latest(l, guidRecord.last);
    if guidRecord.Threw? then Threw(guidRecord.fault, guidRecord.st, l2)
    else if !SemanticIdFits(src.layout, data) then Threw(Argument, guidRecord.st, l2)
    else Returned(DescribedChannel(src.layout, tag, data), guidRecord.st, l2)
  }

  // ----- unknown records -----

  /** Where ReadUnknownEvent probes, relative to a record at p: 0x6000, 0x7000 and 0xC000 past its header. */
  function Probe(p: nat, k: nat): nat
    requires k < 3
  {
    p + 24 + [0x6000, 0x7000, 0xC000][k]
  }

  /**
   * ReadUnknownEvent: skip the key and 20-byte header, then stop at the first
   * probe whose key is a valid index, or at the last probe. A probe that does
   * not find 4 bytes throws EndOfStreamException, except in the stream
   * reader when the previous probe's key ended the input: the skip to the
   * next probe then reads nothing, and the cache answers with that key again.
   */
  function SkipUnknown(src: Source, st: DecoderState): (o: Outcome<()>)
    requires st.pos <= |src.input|
    ensures o.last == None
    ensures o.Returned? ==> o.st == st.(pos := o.st.pos) && o.st.pos + 4 <= |src.input|
    ensures o.Returned? ==> o.st.pos in {Probe(st.pos, 0), Probe(st.pos, 1), Probe(st.pos, 2)}
    ensures o.Threw? ==> o.fault == EndOfStream && o.st == st.(pos := |src.input|)
  {
    var p0, p1, p2 := Probe(st.pos, 0), Probe(st.pos, 1), Probe(st.pos, 2);
    if p0 + 4 > |src.input| then Threw(EndOfStream, st.(pos := |src.input|), None)
    else if IsValidStreamIndex(src, KeyAt(src.input, p0).index) then Returned((), st.(pos := p0), None)
    else if p1 + 4 > |src.input| then
      if src.cachesPeek && p0 + 4 == |src.input| then Returned((), st.(pos := p0), None)
      else Threw(EndOfStream, st.(pos := |src.input|), None)
    else if IsValidStreamIndex(src, KeyAt(src.input, p1).index) then Returned((), st.(pos := p1), None)
    else if p2 + 4 > |src.input| then
      if src.cachesPeek && p1 + 4 == |src.input| then Returned((), st.(pos := p1), None)
      else Threw(EndOfStream, st.(pos := |src.input|), None)
    else Returned((), st.(pos := p2), None)
  }

  // ----- the event loop -----

  /**
   * GetNextEvent: peek the key, then skip an unknown record, stop at the
   * footer, register a new stream's description, or decode a data record.
   */
  function NextEvent(src: Source, st: DecoderState): (o: Outcome<Option<EventValue>>)
    requires st.pos <= |src.input|
    ensures st.pos <= o.st.pos <= |src.input|
    ensures st.channels.Keys <= o.st.channels.Keys
    ensures o.Returned? && o.value.None? ==> o.st.endOfStream
    ensures o.Returned? && o.value.Some? ==> st.pos + 24 <= o.st.pos && !st.endOfStream
    decreases |src.input| - st.pos, if st.endOfStream then 0 else 1
  {
    if st.endOfStream then Returned(None, st, None)
    else if st.pos + 4 > |src.input| then Threw(EndOfStream, st.(pos := |src.input|), None)
    else
      var key := KeyAt(src.input, st.pos);
      if key.index == src.layout.unknownRecordIndex then
        match SkipUnknown(src, st)
        case Threw(f, s, l) => Threw(f, s, l)
        case Returned(_, s, _) => NextEvent(src, s)
      else if key.index == FooterIndex(src.reportedStreams) then
        Returned(None, st.(endOfStream := true), None)
      else if key.index !in st.channels then
        NextAfterDescription(src, st, key.index, ReadDescription(src, st))
      else ReadRecord(src, st)
  }

  /** A new stream's description, read with outcome d, is registered under index before decoding goes on. */
  function NextAfterDescription(src: Source, st: DecoderState, index: int, d: Outcome<Channel>): (o: Outcome<Option<EventValue>>)
    requires st.pos <= d.st.pos <= |src.input| && st.channels.Keys == d.st.channels.Keys
    requires d.Returned? ==> st.pos + 24 <= d.st.pos
    ensures st.pos <= o.st.pos <= |src.input|
    ensures st.channels.Keys <= o.st.channels.Keys
    ensures o.Returned? && o.value.None? ==> o.st.endOfStream
    ensures o.Returned? && o.value.Some? ==> st.pos + 24 <= o.st.pos
    decreases |src.input| - st.pos, 0
  {
    match d
    case Threw(f, s, l) => Threw(f, s, l)
    case Returned(ch, s, l) => After(l, NextEvent(src, s.(channels := s.channels[index := ch])))
  }

  /** Whether an event's stream has one of the given type ids. */
  predicate OfType(e: EventValue, types: set<Guid>)
  {
    e.streamDataTypeId.Some? && e.streamDataTypeId.value in types
  }

  /** The filtered GetNextEvent: next events until one of the given types, or none. */
  function NextEventOf(src: Source, types: set<Guid>, st: DecoderState): (o: Outcome<Option<EventValue>>)
    requires st.pos <= |src.input|
    decreases |src.input| - st.pos, if st.endOfStream then 0 else 1
  {
    match NextEvent(src, st)
    case Threw(f, s, l) => Threw(f, s, l)
    case Returned(None, s, l) => Returned(None, s, l)
    case Returned(Some(e), s, l) =>
      if OfType(e, types) then Returned(Some(e), s, l)
      else After(l, NextEventOf(src, types, s))
  }

  /** The outcome o of a later step, with events evs collected before it. */
  function Prepend(evs: seq<EventValue>, l: Option<EventValue>, o: Outcome<seq<EventValue>>): (r: Outcome<seq<EventValue>>)
    ensures r.Returned? == o.Returned? && r.st == o.st && r.last == Latest(l, o.last)
    ensures r.Returned? ==> r.value == evs + o.value
    ensures r.Threw? ==> r.fault == o.fault
  {
    match o
    case Returned(v, s, l2) => Returned(evs + v, s, Latest(l, l2))
    case Threw(f, s, l2) => Threw(f, s, Latest(l, l2))
  }

  /** Two earlier steps count as one: the later of their last records is kept. */
  lemma AfterAfter<T>(a: Option<EventValue>, b: Option<EventValue>, o: Outcome<T>)
    ensures After(a, After(b, o)) == After(Latest(a, b), o)
  {
  }

  /** Nothing collected before a step leaves its outcome as it is. */
  lemma PrependNothing(o: Outcome<seq<EventValue>>)
    ensures Prepend([], None, o) == o
  {
    if o.Returned? {
      assert [] + o.value == o.value;
    }
  }

  /** Collecting in two steps is collecting once. */
  lemma PrependPrepend(a: seq<EventValue>, l: Option<EventValue>, b: seq<EventValue>, l2: Option<EventValue>,
                       o: Outcome<seq<EventValue>>)
    ensures Prepend(a, l, Prepend(b, l2, o)) == Prepend(a + b, Latest(l, l2), o)
  {
    if o.Returned? {
      assert a + (b + o.value) == a + b + o.value;
    }
  }

  /** The loop of GetAllEvents: next events, collected, until the end of the stream. */
  function AllEvents(src: Source, st: DecoderState): (o: Outcome<seq<EventValue>>)
    requires st.pos <= |src.input|
    decreases |src.input| - st.pos, if st.endOfStream then 0 else 1
  {
    if st.endOfStream then Returned([], st, None)
    else
      match NextEvent(src, st)
      case Threw(f, s, l) => Threw(f, s, l)
      case Returned(None, s, l) => Prepend([], l, AllEvents(src, s))
      case Returned(Some(e), s, l) => Prepend([e], l, AllEvents(src, s))
  }

  /** The loop of the filtered GetAllEvents: only events of the given types are kept. */
  function AllEventsOf(src: Source, types: set<Guid>, st: DecoderState): (o: Outcome<seq<EventValue>>)
    requires st.pos <= |src.input|
    decreases |src.input| - st.pos, if st.endOfStream then 0 else 1
  {
    if st.endOfStream then Returned([], st, None)
    else
      match NextEvent(src, st)
      case Threw(f, s, l) => Threw(f, s, l)
      case Returned(None, s, l) => Prepend([], l, AllEventsOf(src, types, s))
      case Returned(Some(e), s, l) =>
        Prepend(if OfType(e, types) then [e] else [], l, AllEventsOf(src, types, s))
  }
}
