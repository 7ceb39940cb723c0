/**
 * XEFEventStreamReader over a source that cannot seek (a file piped
 * through stdin). The base stream is wrapped in a SkippableStream, which
 * counts the bytes read and moves forward only by reading. Since a peeked
 * key cannot be read again, the reader caches the last key it peeked,
 * with the position the peek ended at; the decoder's cursor is therefore
 * four bytes behind the stream while the cache is live. Every decoding
 * method is proved to change the reader exactly as the matching function
 * of XefDecoding says, with cachesPeek set and checksLength not (this
 * reader has no Length to compare the position with), and CurrentEvent is
 * proved to be the last record ReadDataEvent decoded.
 */
module XefEventStreamReaderModel {
  import opened Wrappers
  import opened Bytes
  import opened DataConstants
  import opened XefDecoding
  import opened XefObjects

  /** What Position's setter throws on a move from position to value, with a skip buffer of bufferLength bytes, if any. */
  function SkipFault(position: nat, value: int, bufferLength: Option<nat>): Option<Fault>
  {
    if value < position then Some(PlainException)
    else
      var count := Wrap32(value - position);
      if (bufferLength.None? || bufferLength.value < count) && Wrap32(count * 2) < 0 then Some(Overflow)
      else if count < 0 then Some(ArgumentOutOfRange)
      else None
  }

  /** A forward move of less than 2^30 bytes is a plain read of that many bytes; a backward one throws. */
  lemma {:induction false} SkipFaultShortSkip(position: nat, value: int, bufferLength: Option<nat>)
    ensures value < position ==> SkipFault(position, value, bufferLength) == Some(PlainException)
    ensures position <= value < position + 0x4000_0000 ==>
      SkipFault(position, value, bufferLength) == None && Wrap32(value - position) == value - position
  {
    if position <= value < position + 0x4000_0000 {
      var count := value - position;
      assert Wrap32(count) == count;
      assert Wrap32(count * 2) == count * 2;
    }
  }

  /** A field read from the bytes of a fixed-width read is the field at the read's offset. */
  lemma SliceAt(s: seq<Byte>, i: nat, n: nat)
    requires i + n <= |s|
    ensures UintAt(s[i..i + n], 0, n) == UintAt(s, i, n)
  {
    assert s[i..i + n][0..n] == s[i..i + n];
  }

  /**
   * SkippableStream: the non-seekable base stream and the count of bytes
   * read from it. The base stream is modelled as the bytes it will deliver.
   */
  class SkippableStream {
    const input: seq<Byte>          // what the base stream delivers, front to back
    var position: nat               // _position
    var buffer: array?<Byte>        // _buffer, which Position's setter reads skipped bytes into

    ghost predicate Valid()
      reads this
    {
      position <= |input|
    }

    constructor(input: seq<Byte>)
      ensures this.input == input && position == 0 && buffer == null && Valid()
    {
      this.input := input;
      position := 0;
      buffer := null;
    }

    /**
     * Read: the base stream copies as many of count bytes as it has left
     * into buf at offset, and the position counts them. An offset or count
     * outside buf throws.
     */
    method Read(buf: array<Byte>, offset: int, count: int) returns (r: Result<nat, Fault>)
      requires Valid()
      modifies this, buf
      ensures Valid() && buffer == old(buffer)
      ensures offset < 0 || count < 0 ==> r == Failure(ArgumentOutOfRange) && position == old(position) && buf[..] == old(buf[..])
      ensures 0 <= offset && 0 <= count && offset + count > buf.Length ==>
        r == Failure(Argument) && position == old(position) && buf[..] == old(buf[..])
      ensures 0 <= offset && 0 <= count && offset + count <= buf.Length ==>
        r.Success? && r.value == |Take(input, old(position), count)| && position == old(position) + r.value
        && buf[offset..offset + r.value] == Take(input, old(position), count)
        && buf[..offset] == old(buf[..offset]) && buf[offset + r.value..] == old(buf[offset + r.value..])
    {
      if offset < 0 || count < 0 {
        return Failure(ArgumentOutOfRange);
      }
      if offset + count > buf.Length {
        return Failure(Argument);
      }
      var n := if position + count <= |input| then count else |input| - position;
      forall i | offset <= i < offset + n {
        buf[i] := input[position + i - offset];
      }
      position := position + n;
      return Success(n);
    }

    /**
     * Position's setter: a target behind the position throws; otherwise
     * the distance, cast to int, is read into the skip buffer, which is
     * first replaced by one of twice that length when it is missing or
     * too short.
     */
    method SetPosition(value: int) returns (fault: Option<Fault>)
      requires Valid()
      modifies this, buffer
      ensures Valid() && old(position) <= position
      ensures fault == SkipFault(old(position), value, if old(buffer) == null then None else Some(old(buffer).Length))
      ensures fault.Some? ==> position == old(position)
      ensures fault.None? ==> position == old(position) + |Take(input, old(position), Wrap32(value - old(position)))|
      ensures old(position) <= value < old(position) + 0x4000_0000 ==>
        fault.None? && position == (if value <= |input| then value else |input|)
    {
      SkipFaultShortSkip(position, value, if buffer == null then None else Some(buffer.Length));
      if position > value {
        return Some(PlainException);
      }
      var count := Wrap32(value - position);
      if buffer == null || buffer.Length < count {
        var size := Wrap32(count * 2);
        if size < 0 {
          return Some(Overflow);
        }
        buffer := new Byte[size];
      }
      var n := Read(buffer, 0, count);
      if n.Failure? {
        return Some(n.error);
      }
      return None;
    }

    /** Seek cannot move a forward-only stream: it reports the position. */
    function Seek(offset: int, origin: int): (r: nat)
      reads this
      ensures r == position
    {
      position
    }

    /** A BinaryReader read of n bytes: one Read into a new array, which holds what the base stream had left. */
    method ReadUpTo(n: nat) returns (b: seq<Byte>)
      requires Valid()
      modifies this
      ensures Valid() && buffer == old(buffer)
      ensures b == Take(input, old(position), n) && position == old(position) + |b|
    {
      var buf := new Byte[n];
      var got := Read(buf, 0, n);
      b := buf[..got.value];
    }
  }

  class XefEventStreamReader {
    const layout: Layout
    const stream: SkippableStream           // BinaryReader.BaseStream
    const totalReportedStreams: int
    const totalDataSize: int
    const eventStartAddress: nat
    var cachedPosition: int                 // _cachedPosition: where the last peek ended, 0 once its key is consumed
    var cachedIndex: int                    // _cachedIndex
    var cachedFlags: int                    // _cachedFlags
    var endOfStream: bool
    var streamError: bool
    var streams: map<int, XefStream>        // _streams
    var currentEvent: XefEvent?             // CurrentEvent
    ghost var channels: map<int, Channel>   // the registry's streams as values

    /**
     * The cache is live only at the position its peek ended, which lies past
     * the start of the events, and then holds the key just before it.
     */
    ghost predicate Valid()
      reads this, stream, streams.Values
    {
      stream.Valid() && 0 < eventStartAddress <= stream.position && cachedPosition <= stream.position
      && (Cached() ==> eventStartAddress + 4 <= stream.position
                       && Key(cachedIndex, cachedFlags) == KeyAt(stream.input, stream.position - 4))
      && Injective(streams) && channels == Channels(streams)
    }

    /** Whether the next peek is answered from the cache. */
    ghost predicate Cached()
      reads this, stream
    {
      cachedPosition == stream.position
    }

    /** The decoder's cursor: a key held by the cache still counts as unread. */
    ghost function Pos(): nat
      reads this, stream
    {
      if Cached() && stream.position >= 4 then stream.position - 4 else stream.position
    }

    function Src(): Source
    {
      Source(layout, stream.input, false, true, totalReportedStreams)
    }

    ghost function State(): DecoderState
      reads this, stream
    {
      DecoderState(Pos(), endOfStream, streamError, channels)
    }

    /** Whether a returned event (or null) is the decoder's value, or the same exception was thrown. */
    ghost predicate Matches(r: Result<XefEvent?, Fault>, o: Outcome<Option<EventValue>>)
      reads this
    {
      r.Success? == o.Returned?
      && (r.Success? ==> (r.value == null <==> o.value.None?) && (r.value != null ==> r.value.IsValue(o.value.value, streams)))
      && (r.Failure? ==> r.error == o.fault)
    }

    /** Whether a returned list is the decoder's list of values, or the same exception was thrown. */
    ghost predicate MatchesAll(r: Result<seq<XefEvent>, Fault>, o: Outcome<seq<EventValue>>)
      reads this
    {
      r.Success? == o.Returned?
      && (r.Success? ==> |r.value| == |o.value| && forall i :: 0 <= i < |r.value| ==> r.value[i].IsValue(o.value[i], streams))
      && (r.Failure? ==> r.error == o.fault)
    }

    /** CurrentEvent c after steps that last decoded l, starting from prev: the object of that record, or still prev. */
    static ghost predicate Current(c: XefEvent?, l: Option<EventValue>, prev: XefEvent?, streams: map<int, XefStream>)
    {
      if l.Some? then c != null && c.IsValue(l.value, streams) else c == prev
    }

    ghost predicate CurrentIs(l: Option<EventValue>, prev: XefEvent?)
      reads this
    {
      Current(currentEvent, l, prev, streams)
    }

    /** Two steps in a row: CurrentEvent is the last record either decoded. */
    static lemma CurrentLatest(c0: XefEvent?, c1: XefEvent?, c2: XefEvent?, l1: Option<EventValue>, l2: Option<EventValue>,
                               s1: map<int, XefStream>, s2: map<int, XefStream>)
      requires Current(c1, l1, c0, s1) && Current(c2, l2, c1, s2) && Extends(s1, s2)
      ensures Current(c2, Latest(l1, l2), c0, s2)
    {
      if l2.None? && l1.Some? {
        c1.IsValueExtends(l1.value, s1, s2);
      }
    }

    /** A registry that keeps every entry keeps what CurrentEvent stands for. */
    static lemma CurrentKept(c: XefEvent?, l: Option<EventValue>, prev: XefEvent?, s1: map<int, XefStream>, s2: map<int, XefStream>)
      requires Current(c, l, prev, s1) && Extends(s1, s2)
      ensures Current(c, l, prev, s2)
    {
      if l.Some? {
        c.IsValueExtends(l.value, s1, s2);
      }
    }

    /** The event an outcome carries does not depend on what earlier steps decoded. */
    lemma MatchesAfter(r: Result<XefEvent?, Fault>, l: Option<EventValue>, o: Outcome<Option<EventValue>>)
      requires Matches(r, o)
      ensures Matches(r, After(l, o)) && After(l, o).st == o.st
    {
    }

    /** A registry that only gained fresh streams. */
    twostate predicate RegistryGrew()
      reads this
    {
      Extends(old(streams), streams) && (forall s :: s in streams.Values ==> s in old(streams).Values || fresh(s))
    }

    /** The methods that only read keys: the flags, the registry and CurrentEvent stay. */
    twostate predicate OnlyCursorMoved()
      reads this
    {
      endOfStream == old(endOfStream) && streamError == old(streamError) && streams == old(streams)
      && channels == old(channels) && currentEvent == old(currentEvent)
    }

    /** The constructor once ReadHeader is done: events start where the stream is. */
    constructor(layout: Layout, stream: SkippableStream, totalReportedStreams: int, totalDataSize: int)
      requires stream.Valid() && stream.position > 0
      ensures this.layout == layout && this.stream == stream
      ensures this.totalReportedStreams == totalReportedStreams && this.totalDataSize == totalDataSize
      ensures eventStartAddress == stream.position && !Cached()
      ensures !endOfStream && !streamError && streams == map[] && currentEvent == null
      ensures Valid() && State().pos == eventStartAddress
    {
      this.layout := layout;
      this.stream := stream;
      this.totalReportedStreams := totalReportedStreams;
      this.totalDataSize := totalDataSize;
      eventStartAddress := stream.position;
      cachedPosition := 0;
      cachedIndex := 0;
      cachedFlags := 0;
      endOfStream := false;
      streamError := false;
      streams := map[];
      currentEvent := null;
      channels := map[];
    }

    /**
     * Opening a piped file: wrap it, skip to STREAM_COUNT_ADDRESS, read the
     * stream count, corrected, and the total data size. A file too short
     * for them throws EndOfStreamException from ReadHeader.
     */
    static method Open(layout: Layout, input: seq<Byte>) returns (r: Result<XefEventStreamReader, Fault>)
      ensures layout.streamCountAddress < 0x4000_0000 ==> (r.Failure? <==> layout.streamCountAddress + 12 > |input|)
      ensures layout.streamCountAddress < 0x4000_0000 && r.Failure? ==> r.error == EndOfStream
      ensures r.Success? ==> fresh(r.value) && fresh(r.value.stream) && r.value.Valid()
      ensures r.Success? ==> r.value.layout == layout && r.value.stream.input == input
      ensures r.Success? ==> r.value.State().pos == r.value.eventStartAddress && r.value.streams == map[]
      ensures r.Success? ==> !r.value.endOfStream && !r.value.streamError && r.value.currentEvent == null
      ensures r.Success? && layout.streamCountAddress < 0x4000_0000 ==>
        var a := layout.streamCountAddress;
        r.value.eventStartAddress == a + 12
        && r.value.totalReportedStreams == ReportedStreams(I32At(input, a))
        && r.value.totalDataSize == I64At(input, a + 4)
    {
      var s := new SkippableStream(input);
      var fault := s.SetPosition(layout.streamCountAddress);
      if fault.Some? {
        return Failure(fault.value);
      }
      var p := s.position;
      var count := s.ReadUpTo(4);
      var size := s.ReadUpTo(8);
      if |size| < 8 {
        return Failure(EndOfStream);
      }
      SliceAt(input, p, 4);
      SliceAt(input, p + 4, 8);
      var reported := ReportedStreams(I32At(count, 0));
      var reader := new XefEventStreamReader(layout, s, reported, I64At(size, 0));
      return Success(reader);
    }

    /** StreamCount: the larger of the registry's size and the reported count. */
    function StreamCount(): (r: int)
      reads this
      ensures r >= |streams| && r >= totalReportedStreams
      ensures r == |streams| || r == totalReportedStreams
    {
      if |streams| > totalReportedStreams then |streams| else totalReportedStreams
    }

    // ----- BinaryReader primitives -----

    /** A fixed-width read: its bytes, or EndOfStreamException after consuming what is left. */
    method ReadFixed(n: nat) returns (b: Option<seq<Byte>>)
      requires Valid() && !Cached() && n > 0
      modifies stream
      ensures Valid() && !Cached()
      ensures old(stream.position) + n <= |stream.input| ==>
        b == Some(stream.input[old(stream.position)..old(stream.position) + n]) && stream.position == old(stream.position) + n
      ensures old(stream.position) + n > |stream.input| ==> b.None? && stream.position == |stream.input|
    {
      var bytes := stream.ReadUpTo(n);
      if |bytes| < n {
        return None;
      }
      return Some(bytes);
    }

    /** ReadBytes: as many of count bytes as remain; a negative count throws. */
    method ReadBytes(count: int) returns (r: Result<seq<Byte>, Fault>)
      requires Valid()
      modifies stream
      ensures Valid() && (Cached() <==> old(Cached()) && stream.position == old(stream.position))
      ensures count < 0 ==> r == Failure(ArgumentOutOfRange) && stream.position == old(stream.position)
      ensures count >= 0 ==> r == Success(Take(stream.input, old(stream.position), count))
                             && stream.position == old(stream.position) + |r.value|
    {
      if count < 0 {
        return Failure(ArgumentOutOfRange);
      }
      var b := stream.ReadUpTo(count);
      return Success(b);
    }

    /** PeekEventKey: the cached key when the cache is live, otherwise two int16 reads, which refill the cache. */
    method PeekEventKey() returns (r: Result<Key, Fault>)
      requires Valid()
      modifies this, stream
      ensures Valid() && OnlyCursorMoved()
      ensures old(Pos()) + 4 <= |stream.input| ==> r == Success(KeyAt(stream.input, old(Pos()))) && Pos() == old(Pos()) && Cached()
      ensures old(Pos()) + 4 > |stream.input| ==> r == Failure(EndOfStream) && Pos() == |stream.input| && !Cached()
    {
      if cachedPosition == stream.position {
        return Success(Key(cachedIndex, cachedFlags));
      }
      var p := stream.position;
      var index := ReadFixed(2);
      var flags := ReadFixed(2);
      if flags.None? {
        return Failure(EndOfStream);
      }
      SliceAt(stream.input, p, 2);
      SliceAt(stream.input, p + 2, 2);
      cachedPosition := stream.position;
      cachedIndex := I16At(index.value, 0);
      cachedFlags := I16At(flags.value, 0);
      return Success(Key(cachedIndex, cachedFlags));
    }

    /** GetEventKey: a peek whose key is then consumed. */
    method GetEventKey() returns (r: Result<Key, Fault>)
      requires Valid()
      modifies this, stream
      ensures Valid() && OnlyCursorMoved() && !Cached()
      ensures old(Pos()) + 4 <= |stream.input| ==> r == Success(KeyAt(stream.input, old(Pos()))) && Pos() == old(Pos()) + 4
      ensures old(Pos()) + 4 > |stream.input| ==> r == Failure(EndOfStream) && Pos() == |stream.input|
    {
      r := PeekEventKey();
      if r.Success? {
        cachedPosition := 0;
      }
    }

    /** The key, consumed, and the four header fields, read one by one. */
    method ReadRecordHeader() returns (h: Option<RecordHeader>)
      requires Valid()
      modifies this, stream
      ensures Valid() && OnlyCursorMoved() && !Cached()
      ensures old(Pos()) + 24 <= |stream.input| ==> Pos() == old(Pos()) + 24 && h == Some(HeaderAt(stream.input, old(Pos())))
      ensures old(Pos()) + 24 > |stream.input| ==> h.None? && Pos() == |stream.input|
    {
      ghost var p := Pos();
      var key := GetEventKey();
      if key.Failure? {
        return None;
      }
      var dataSize := ReadFixed(4);
      var ticks := ReadFixed(8);
      var unknown := ReadFixed(4);
      var fullDataSize := ReadFixed(4);
      if fullDataSize.None? {
        return None;
      }
      SliceAt(stream.input, p + 4, 4);
      SliceAt(stream.input, p + 8, 8);
      SliceAt(stream.input, p + 16, 4);
      SliceAt(stream.input, p + 20, 4);
      return Some(RecordHeader(key.value, I32At(dataSize.value, 0), I64At(ticks.value, 0), U32At(unknown.value, 0),
                               I32At(fullDataSize.value, 0)));
    }

    // ----- decoding -----

    /** ReadDataEvent: one framed record, with ReadRecord's outcome; CurrentEvent is the new event. */
    method ReadDataEvent() returns (r: Result<XefEvent?, Fault>)
      requires Valid()
      modifies this, stream, streams.Values
      ensures Valid() && streams == old(streams)
      ensures var o := ReadRecord(Src(), old(State())); Matches(r, o) && State() == o.st && CurrentIs(o.last, old(currentEvent))
      ensures r.Success? && r.value != null ==> fresh(r.value) && !Cached()
    {
      if endOfStream {
        return Success(null);
      }
      r := ReadFramedRecord();
    }

    /** The try block of ReadDataEvent: an IOException while reading the header ends the stream with an error. */
    method ReadFramedRecord() returns (r: Result<XefEvent?, Fault>)
      requires Valid() && !endOfStream
      modifies this, stream, streams.Values
      ensures Valid() && streams == old(streams)
      ensures var o := ReadRecord(Src(), old(State())); Matches(r, o) && State() == o.st && CurrentIs(o.last, old(currentEvent))
      ensures r.Success? && r.value != null ==> fresh(r.value) && !Cached()
    {
      ghost var st := State();
      var header := ReadRecordHeader();
      if header.None? {
        endOfStream := true;
        streamError := true;
        return Success(null);
      }
      r := ReadEventBody(header.value, st);
    }

    /** The part of ReadDataEvent after the header h of a record that starts at st.pos. */
    method ReadEventBody(h: RecordHeader, ghost st: DecoderState) returns (r: Result<XefEvent?, Fault>)
      requires Valid() && !Cached() && st.pos + 24 == stream.position && State() == st.(pos := stream.position)
      modifies this, stream, streams.Values
      ensures Valid() && !Cached() && streams == old(streams)
      ensures var o := RecordAfterHeader(Src(), st, h); Matches(r, o) && State() == o.st && CurrentIs(o.last, old(currentEvent))
      ensures r.Success? && r.value != null ==> fresh(r.value)
    {
      ghost var o := RecordAfterHeader(Src(), st, h);
      var eventStream: XefStream? := null;
      if h.key.index in streams {
        eventStream := streams[h.key.index];
      }
      var tagData, frameIndex, tagFault := ReadEventTag(eventStream, h.key.index);
      if tagFault {
        var fault := ConverterFault(TagLength(tagData), 0, 4);
        assert o == Threw(fault, st.(pos := stream.position), None);
        return Failure(fault);
      }
      assert o == RecordAfterTag(Src(), st, h, tagData);
      r := ReadEventPayload(eventStream, h, tagData, frameIndex, st);
    }

    /**
     * The tag step of ReadDataEvent: TagSize bytes for a registered stream
     * (read as the frame number when 4 long; a shorter read throws), the
     * default tag length for an unregistered index.
     */
    method ReadEventTag(eventStream: XefStream?, index: int) returns (tagData: Option<seq<Byte>>, frameIndex: int, tagFault: bool)
      requires Valid() && !Cached()
      requires eventStream == (if index in streams then streams[index] else null)
      modifies stream
      ensures Valid() && !Cached()
      ensures tagData == ReadTag(Src(), channels, index, old(stream.position))
      ensures stream.position == old(stream.position) + TagLength(tagData)
      ensures tagFault <==> TagIsFrameIndex(channels, index) && TagLength(tagData) < 4
      ensures !tagFault ==> frameIndex == if TagIsFrameIndex(channels, index) then I32At(tagData.value, 0) else 0
    {
      tagData, frameIndex, tagFault := None, 0, false;
      if eventStream != null {
        if eventStream.tagSize > 0 {
          var tag := ReadBytes(eventStream.tagSize);
          tagData := Some(tag.value);
          if eventStream.tagSize == 4 {
            if |tag.value| < 4 {
              tagFault := true;
              return;
            }
            frameIndex := I32At(tag.value, 0);
          }
        }
      } else {
        var tag := ReadBytes(layout.defaultTagSize);
        tagData := Some(tag.value);
      }
    }

    /** The payload step of ReadDataEvent, once the tag is read, up to the new XEFEvent. */
    method ReadEventPayload(eventStream: XefStream?, h: RecordHeader, tagData: Option<seq<Byte>>, frameIndex: int, ghost st: DecoderState)
      returns (r: Result<XefEvent?, Fault>)
      requires Valid() && !Cached() && stream.position == st.pos + 24 + TagLength(tagData) && State() == st.(pos := stream.position)
      requires eventStream == (if h.key.index in streams then streams[h.key.index] else null)
      requires TagIsFrameIndex(channels, h.key.index) ==> TagLength(tagData) >= 4
      requires frameIndex == if TagIsFrameIndex(channels, h.key.index) then I32At(tagData.value, 0) else 0
      modifies this, stream, streams.Values
      ensures Valid() && !Cached() && streams == old(streams)
      ensures var o := RecordAfterTag(Src(), st, h, tagData); Matches(r, o) && State() == o.st && CurrentIs(o.last, old(currentEvent))
      ensures r.Success? && r.value != null ==> fresh(r.value)
    {
      ghost var o := RecordAfterTag(Src(), st, h, tagData);
      var eventData := ReadBytes(h.dataSize);
      if eventData.Failure? {
        assert o == Threw(ArgumentOutOfRange, st.(pos := stream.position), None);
        return Failure(eventData.error);
      }
      r := FinishEvent(eventStream, h, tagData, frameIndex, eventData.value, st);
    }

    /** The end of ReadDataEvent, once the payload data is read: the new XEFEvent becomes CurrentEvent. */
    method FinishEvent(eventStream: XefStream?, h: RecordHeader, tagData: Option<seq<Byte>>, frameIndex: int, data: seq<Byte>,
                       ghost st: DecoderState)
      returns (r: Result<XefEvent?, Fault>)
      requires Valid() && !Cached() && st.pos + 24 + TagLength(tagData) <= |stream.input| && h.dataSize >= 0
      requires data == Take(stream.input, st.pos + 24 + TagLength(tagData), h.dataSize)
      requires stream.position == st.pos + 24 + TagLength(tagData) + |data| && State() == st.(pos := stream.position)
      requires eventStream == (if h.key.index in streams then streams[h.key.index] else null)
      requires TagIsFrameIndex(channels, h.key.index) ==> TagLength(tagData) >= 4
      requires frameIndex == if TagIsFrameIndex(channels, h.key.index) then I32At(tagData.value, 0) else 0
      modifies this, streams.Values
      ensures Valid() && !Cached() && streams == old(streams)
      ensures var o := RecordAfterTag(Src(), st, h, tagData); Matches(r, o) && State() == o.st && CurrentIs(o.last, old(currentEvent))
      ensures r.Success? && r.value != null ==> fresh(r.value)
    {
      ghost var e := NewEvent(st.channels, h, tagData, data);
      ghost var st' := st.(pos := stream.position, channels := Counted(st.channels, h.key.index));
      assert RecordAfterTag(Src(), st, h, tagData) == Returned(Some(e), st', Some(e));
      r := NewXefEvent(eventStream, h, frameIndex, tagData, data);
      currentEvent := r.value;
      assert State() == st';
    }

    /** The new XEFEvent, which counts itself on its stream. */
    method NewXefEvent(eventStream: XefStream?, h: RecordHeader, frameIndex: int, tagData: Option<seq<Byte>>, eventData: seq<Byte>)
      returns (r: Result<XefEvent?, Fault>)
      requires Valid()
      requires eventStream == (if h.key.index in streams then streams[h.key.index] else null)
      requires TagIsFrameIndex(channels, h.key.index) ==> TagLength(tagData) >= 4
      requires frameIndex == if TagIsFrameIndex(channels, h.key.index) then I32At(tagData.value, 0) else 0
      modifies this, streams.Values
      ensures Valid() && streams == old(streams) && cachedPosition == old(cachedPosition)
      ensures cachedIndex == old(cachedIndex) && cachedFlags == old(cachedFlags)
      ensures endOfStream == old(endOfStream) && streamError == old(streamError)
      ensures channels == Counted(old(channels), h.key.index)
      ensures r.Success? && r.value != null && fresh(r.value)
      ensures r.value.IsValue(NewEvent(old(channels), h, tagData, eventData), streams)
    {
      ghost var before := channels;
      var e := new XefEvent(eventStream, frameIndex, h.ticks, h.fullDataSize, tagData, eventData, h.unknown);
      if eventStream != null {
        forall j | j in streams && j != h.key.index
          ensures streams[j].Snapshot() == before[j]
        {
          assert streams[j] != eventStream;
        }
        ChannelsCounted(streams, h.key.index, before);
      }
      channels := Counted(channels, h.key.index);
      return Success(e);
    }

    /** ReadStreamDescription, with ReadDescription's outcome; the new stream is not yet registered. */
    method ReadStreamDescription() returns (r: Result<XefStream, Fault>)
      requires Valid()
      modifies this, stream, streams.Values
      ensures Valid() && streams == old(streams)
      ensures var o := ReadDescription(Src(), old(State()));
        r.Success? == o.Returned? && State() == o.st && CurrentIs(o.last, old(currentEvent))
        && (r.Success? ==> fresh(r.value) && r.value.Snapshot() == o.value)
        && (r.Failure? ==> r.error == o.fault)
    {
      ghost var st := State();
      ghost var first := ReadRecord(Src(), st);
      ghost var prev := currentEvent;
      var nameEvent := ReadDataEvent();
      r := DescribeFromName(nameEvent, st, first, prev);
    }

    /** The checks on the name record ReadDataEvent returned with outcome first. */
    method DescribeFromName(nameEvent: Result<XefEvent?, Fault>, ghost st: DecoderState, ghost first: Outcome<Option<EventValue>>,
                            ghost prev: XefEvent?)
      returns (r: Result<XefStream, Fault>)
      requires Valid() && Matches(nameEvent, first) && State() == first.st && CurrentIs(first.last, prev)
      requires st.pos <= first.st.pos <= |stream.input| && first.st.channels.Keys == st.channels.Keys
      requires first.Returned? && first.value.Some? ==> st.pos + 24 <= first.st.pos
      requires nameEvent.Success? && nameEvent.value != null ==> !Cached()
      modifies this, stream, streams.Values
      ensures Valid() && streams == old(streams)
      ensures var o := DescriptionAfterName(Src(), st, first);
        r.Success? == o.Returned? && State() == o.st && CurrentIs(o.last, prev)
        && (r.Success? ==> fresh(r.value) && r.value.Snapshot() == o.value)
        && (r.Failure? ==> r.error == o.fault)
    {
      if nameEvent.Failure? {
        return Failure(nameEvent.error);
      }
      if nameEvent.value == null {
        return Failure(NullReference);
      }
      var tag := nameEvent.value.tagData;
      var data := nameEvent.value.eventData;
      var fault := NameRecordFault(layout, tag, data);
      if fault.Some? {
        return Failure(fault.value);
      }
      r := DescribeFromFields(tag.value, data, first.last, prev);
    }

    /** The fields of a name record that holds them, the skip, the Guid record and the new stream. */
    method DescribeFromFields(tag: seq<Byte>, data: seq<Byte>, ghost l: Option<EventValue>, ghost prev: XefEvent?)
      returns (r: Result<XefStream, Fault>)
      requires Valid() && !Cached() && NameRecordFits(layout, tag, data) && CurrentIs(l, prev)
      modifies this, stream, streams.Values
      ensures Valid() && streams == old(streams)
      ensures var o := DescriptionFromName(Src(), old(State()), l, tag, data);
        r.Success? == o.Returned? && State() == o.st && CurrentIs(o.last, prev)
        && (r.Success? ==> fresh(r.value) && r.value.Snapshot() == o.value)
        && (r.Failure? ==> r.error == o.fault)
    {
      var streamFlags := I16At(tag, layout.streamFlagsOffset);
      if IsCompressed(layout, streamFlags) {
        var _ := ReadBytes(layout.compressedExtraSize);
      }
      r := DescribeFromGuidRecord(tag, data, l, prev, old(State()));
    }

    /**
     * The rest of a description whose name record moved the reader to st
     * before the skip: the Guid record is read and ignored, then the new
     * stream takes its fields from the name record. (The source takes the
     * fields before the skip; they are read from the name record in memory,
     * so the order does not show.)
     */
    method DescribeFromGuidRecord(tag: seq<Byte>, data: seq<Byte>, ghost l: Option<EventValue>, ghost prev: XefEvent?,
                                  ghost st: DecoderState)
      returns (r: Result<XefStream, Fault>)
      requires Valid() && !Cached() && NameRecordFits(layout, tag, data) && CurrentIs(l, prev)
      requires st.pos <= |stream.input| && State() == SkipCompressedExtra(Src(), st, tag)
      modifies this, stream, streams.Values
      ensures Valid() && streams == old(streams)
      ensures var o := DescriptionFromName(Src(), st, l, tag, data);
        r.Success? == o.Returned? && State() == o.st && CurrentIs(o.last, prev)
        && (r.Success? ==> fresh(r.value) && r.value.Snapshot() == o.value)
        && (r.Failure? ==> r.error == o.fault)
    {
      ghost var named := currentEvent;
      ghost var guidRecord := ReadRecord(Src(), State());
      var guidEvent := ReadDataEvent();
      CurrentLatest(prev, named, currentEvent, l, guidRecord.last, streams, streams);
      if guidEvent.Failure? {
        return Failure(guidEvent.error);
      }
      if !SemanticIdFits(layout, data) {
        return Failure(Argument);
      }
      var streamIndex := I16At(tag, layout.streamIndexOffset);
      var streamFlags := I16At(tag, layout.streamFlagsOffset);
      var dataTypeId: Guid := tag[layout.typeIdOffset..layout.typeIdOffset + 16];
      var dataTypeName := data[..layout.nameSize];
      var tagSize := I16At(data, layout.tagSizeOffset);
      var semanticId: Guid := data[layout.semanticIdOffset..layout.semanticIdOffset + 16];
      var s := new XefStream(streamIndex, streamFlags, tagSize, dataTypeName, dataTypeId, semanticId);
      return Success(s);
    }

    /**
     * ReadUnknownEvent: the key, consumed, and the header, then the three
     * probes of SkipUnknown, each a skip and a peek; a failed read escapes
     * as EndOfStreamException.
     */
    method ReadUnknownEvent() returns (fault: Option<Fault>)
      requires Valid()
      modifies this, stream
      ensures Valid() && OnlyCursorMoved()
      ensures var o := SkipUnknown(Src(), old(State()));
        (fault.None? <==> o.Returned?) && (fault.Some? ==> fault.value == o.fault) && State() == o.st
    {
      ghost var st := State();
      var header := ReadRecordHeader();
      if header.None? {
        return Some(EndOfStream);
      }
      fault := FirstProbe(st);
    }

    /** The first probe, 0x6000 bytes past the header of the unknown record at st.pos. */
    method FirstProbe(ghost st: DecoderState) returns (fault: Option<Fault>)
      requires Valid() && !Cached() && Pos() == st.pos + 24 && State() == st.(pos := Pos())
      modifies this, stream
      ensures Valid() && OnlyCursorMoved()
      ensures var o := SkipUnknown(Src(), st);
        (fault.None? <==> o.Returned?) && (fault.Some? ==> fault.value == o.fault) && State() == o.st
    {
      var peek := SkipAndPeek(0x6000);
      if peek.Failure? {
        return Some(peek.error);
      }
      if !IsValidStreamIndex(Src(), peek.value.index) {
        fault := SecondProbe(st);
      } else {
        fault := None;
      }
    }

    /** The second probe, once the first found an invalid key. */
    method SecondProbe(ghost st: DecoderState) returns (fault: Option<Fault>)
      requires Valid() && Cached() && st.pos <= |stream.input| && Pos() == Probe(st.pos, 0) && State() == st.(pos := Pos())
      requires Pos() + 4 <= |stream.input| && !IsValidStreamIndex(Src(), KeyAt(stream.input, Pos()).index)
      modifies this, stream
      ensures Valid() && OnlyCursorMoved()
      ensures var o := SkipUnknown(Src(), st);
        (fault.None? <==> o.Returned?) && (fault.Some? ==> fault.value == o.fault) && State() == o.st
    {
      var peek := SkipAndPeek(0x1000 - 4);
      if peek.Failure? {
        return Some(peek.error);
      }
      if !IsValidStreamIndex(Src(), peek.value.index) {
        fault := LastProbe(st);
      } else {
        fault := None;
      }
    }

    /**
     * The last probe, once the second found an invalid key: at the second
     * probe, or still at the first when the skip to the second read nothing.
     */
    method LastProbe(ghost st: DecoderState) returns (fault: Option<Fault>)
      requires Valid() && Cached() && st.pos <= |stream.input| && State() == st.(pos := Pos())
      requires Pos() == Probe(st.pos, 1) || (Pos() == Probe(st.pos, 0) && Pos() + 4 == |stream.input|)
      requires Pos() + 4 <= |stream.input| && !IsValidStreamIndex(Src(), KeyAt(stream.input, Pos()).index)
      requires !IsValidStreamIndex(Src(), KeyAt(stream.input, Probe(st.pos, 0)).index)
      modifies this, stream
      ensures Valid() && OnlyCursorMoved()
      ensures var o := SkipUnknown(Src(), st);
        (fault.None? <==> o.Returned?) && (fault.Some? ==> fault.value == o.fault) && State() == o.st
    {
      var peek := SkipAndPeek(0x5000 - 4);
      if peek.Failure? {
        return Some(peek.error);
      }
      return None;
    }

    /**
     * A skip of n bytes with ReadBytes, then PeekEventKey where it stopped.
     * A skip that reads nothing leaves a live cache live, and the peek
     * answers with the cached key again.
     */
    method SkipAndPeek(n: nat) returns (r: Result<Key, Fault>)
      requires Valid()
      modifies this, stream
      ensures Valid() && OnlyCursorMoved()
      ensures var m := old(stream.position);
        var q := if m + n <= |stream.input| then m + n else |stream.input|;
        if old(Cached()) && q == m then r == Success(KeyAt(stream.input, old(Pos()))) && Pos() == old(Pos()) && Cached()
        else if q + 4 <= |stream.input| then r == Success(KeyAt(stream.input, q)) && Pos() == q && Cached()
        else r == Failure(EndOfStream) && Pos() == |stream.input|
    {
      var _ := ReadBytes(n);
      r := PeekEventKey();
    }

    /** GetNextEvent, with NextEvent's outcome. */
    method GetNextEvent() returns (r: Result<XefEvent?, Fault>)
      requires Valid()
      modifies this, stream, streams.Values
      decreases |stream.input| - Pos(), if endOfStream then 0 else 2
      ensures Valid() && RegistryGrew()
      ensures var o := NextEvent(Src(), old(State())); Matches(r, o) && State() == o.st && CurrentIs(o.last, old(currentEvent))
      ensures r.Success? && r.value != null ==> fresh(r.value)
    {
      if endOfStream {
        return Success(null);
      }
      var key := PeekEventKey();
      if key.Failure? {
        return Failure(key.error);
      }
      if key.value.index == layout.unknownRecordIndex {
        r := SkipAndContinue();
      } else {
        r := EventAtKey(key.value.index);
      }
    }

    /**
     * GetNextEvent on a key other than the unknown sentinel: the footer
     * ends the stream, a new index starts a stream description, and a
     * registered one a data record.
     */
    method EventAtKey(index: int) returns (r: Result<XefEvent?, Fault>)
      requires Valid() && !endOfStream && Pos() + 4 <= |stream.input| && index == KeyAt(stream.input, Pos()).index
      requires index != layout.unknownRecordIndex
      modifies this, stream, streams.Values
      decreases |stream.input| - Pos(), 1
      ensures Valid() && RegistryGrew()
      ensures var o := NextEvent(Src(), old(State())); Matches(r, o) && State() == o.st && CurrentIs(o.last, old(currentEvent))
      ensures r.Success? && r.value != null ==> fresh(r.value)
    {
      if index == FooterIndex(totalReportedStreams) {
        endOfStream := true;
        return Success(null);
      } else if index !in streams {
        r := DescribeAndContinue(index);
      } else {
        r := ReadDataEvent();
      }
    }

    /** GetNextEvent's unknown-record branch: skip the record, then decode on. */
    method SkipAndContinue() returns (r: Result<XefEvent?, Fault>)
      requires Valid() && !endOfStream
      modifies this, stream, streams.Values
      decreases |stream.input| - Pos(), 0
      ensures Valid() && RegistryGrew()
      ensures var skip := SkipUnknown(Src(), old(State()));
        skip.Threw? ==> r == Failure(skip.fault) && State() == skip.st && currentEvent == old(currentEvent)
      ensures var skip := SkipUnknown(Src(), old(State()));
        skip.Returned? ==> var n := NextEvent(Src(), skip.st); Matches(r, n) && State() == n.st && CurrentIs(n.last, old(currentEvent))
      ensures r.Success? && r.value != null ==> fresh(r.value)
    {
      var fault := ReadUnknownEvent();
      if fault.Some? {
        return Failure(fault.value);
      }
      r := GetNextEvent();
    }

    /**
     * GetNextEvent's description branch: read the description of a new
     * stream at the cursor, register it under index, then decode on.
     */
    method DescribeAndContinue(index: int) returns (r: Result<XefEvent?, Fault>)
      requires Valid() && index !in streams
      modifies this, stream, streams.Values
      decreases |stream.input| - Pos(), 0
      ensures Valid() && RegistryGrew()
      ensures var o := NextAfterDescription(Src(), old(State()), index, ReadDescription(Src(), old(State())));
        Matches(r, o) && State() == o.st && CurrentIs(o.last, old(currentEvent))
      ensures r.Success? && r.value != null ==> fresh(r.value)
    {
      ghost var st := State();
      ghost var d := ReadDescription(Src(), st);
      ghost var prev := currentEvent;
      var description := ReadStreamDescription();
      if description.Failure? {
        return Failure(description.error);
      }
      r := RegisterAndContinue(index, description.value, st, d, prev);
    }

    /** _streams[index] = the new stream: a stream object not yet registered goes in under a free index. */
    method Register(index: int, s: XefStream)
      requires Valid() && index !in streams && s !in streams.Values
      modifies this
      ensures Valid() && streams == old(streams)[index := s] && currentEvent == old(currentEvent)
      ensures State() == old(State()).(channels := old(channels)[index := s.Snapshot()])
    {
      ChannelsAdd(streams, index, s);
      InjectiveAdd(streams, index, s);
      streams := streams[index := s];
      channels := channels[index := s.Snapshot()];
    }

    /**
     * The rest of GetNextEvent's description branch: register the stream s
     * that the description read from st with outcome d, then decode on.
     */
    method RegisterAndContinue(index: int, s: XefStream, ghost st: DecoderState, ghost d: Outcome<Channel>, ghost prev: XefEvent?)
      returns (r: Result<XefEvent?, Fault>)
      requires Valid() && index !in streams && s !in streams.Values
      requires st.pos <= d.st.pos <= |stream.input| && st.channels.Keys == d.st.channels.Keys && d.Returned? && st.pos + 24 <= d.st.pos
      requires State() == d.st && s.Snapshot() == d.value && CurrentIs(d.last, prev)
      modifies this, stream, streams.Values, s
      decreases |stream.input| - Pos(), 4
      ensures Valid() && Extends(old(streams), streams) && index in streams && streams[index] == s
      ensures forall t :: t in streams.Values ==> t in old(streams).Values || t == s || fresh(t)
      ensures var o := NextAfterDescription(Src(), st, index, d); Matches(r, o) && State() == o.st && CurrentIs(o.last, prev)
      ensures r.Success? && r.value != null ==> fresh(r.value)
    {
      ghost var described := streams;
      Register(index, s);
      ghost var registered := streams;
      assert registered.Values <= described.Values + {s};
      CurrentKept(currentEvent, d.last, prev, described, registered);
      r := ContinueAfter(d.last, prev);
    }

    /** GetNextEvent after earlier steps that last decoded l, with CurrentEvent as they left it. */
    method ContinueAfter(ghost l: Option<EventValue>, ghost prev: XefEvent?) returns (r: Result<XefEvent?, Fault>)
      requires Valid() && CurrentIs(l, prev)
      modifies this, stream, streams.Values
      decreases |stream.input| - Pos(), 3
      ensures Valid() && RegistryGrew()
      ensures var o := After(l, NextEvent(Src(), old(State()))); Matches(r, o) && State() == o.st && CurrentIs(o.last, prev)
      ensures r.Success? && r.value != null ==> fresh(r.value)
    {
      ghost var before := streams;
      ghost var mid := currentEvent;
      ghost var n := NextEvent(Src(), State());
      r := GetNextEvent();
      MatchesAfter(r, l, n);
      CurrentLatest(prev, mid, currentEvent, l, n.last, before, streams);
    }

    /**
     * GetAllEvents: move back to the first event, which a forward-only
     * stream can do only when it has not left it, then collect every
     * non-null event until the end of the stream. Neither the flags nor
     * the registry are reset.
     */
    method GetAllEvents() returns (r: Result<seq<XefEvent>, Fault>)
      requires Valid()
      modifies this, stream, stream.buffer, streams.Values
      ensures Valid() && RegistryGrew()
      ensures old(stream.position) > eventStartAddress ==>
        r == Failure(PlainException) && State() == old(State()) && currentEvent == old(currentEvent)
      ensures old(stream.position) <= eventStartAddress ==>
        var o := AllEvents(Src(), old(State())); MatchesAll(r, o) && State() == o.st && CurrentIs(o.last, old(currentEvent))
    {
      var moved := stream.SetPosition(eventStartAddress);
      if moved.Some? {
        return Failure(moved.value);
      }
      r := CollectAll();
    }

    /** The loop of GetAllEvents, from the first event on. */
    method CollectAll() returns (r: Result<seq<XefEvent>, Fault>)
      requires Valid()
      modifies this, stream, streams.Values
      ensures Valid() && RegistryGrew()
      ensures var o := AllEvents(Src(), old(State())); MatchesAll(r, o) && State() == o.st && CurrentIs(o.last, old(currentEvent))
    {
      ghost var st0 := State();
      PrependNothing(AllEvents(Src(), st0));
      var all: seq<XefEvent> := [];
      ghost var values: seq<EventValue> := [];
      ghost var last: Option<EventValue> := None;
      while !endOfStream
        invariant Valid() && RegistryGrew() && Gathered(all, values, last, st0, old(currentEvent))
        decreases |stream.input| - Pos(), if endOfStream then 0 else 1
      {
        ghost var before := streams;
        var fault;
        all, values, last, fault := CollectNext(all, values, last, st0, old(currentEvent));
        if fault.Some? {
          return Failure(fault.value);
        }
        ExtendsTransitive(old(streams), before, streams);
      }
      return Success(all);
    }

    /**
     * The loop invariant of GetAllEvents from st0: the events collected so
     * far are the decoder's values, the decoder's run from here completes
     * them, and CurrentEvent is the last record decoded since prev.
     */
    ghost predicate Gathered(all: seq<XefEvent>, values: seq<EventValue>, last: Option<EventValue>, st0: DecoderState, prev: XefEvent?)
      reads this, stream
    {
      Pos() <= |stream.input| && st0.pos <= |stream.input|
      && |all| == |values| && (forall i :: 0 <= i < |all| ==> all[i].IsValue(values[i], streams))
      && Prepend(values, last, AllEvents(Src(), State())) == AllEvents(Src(), st0)
      && CurrentIs(last, prev)
    }

    /** One step of GetAllEvents: the next event, kept when it is not null. */
    method CollectNext(all: seq<XefEvent>, ghost values: seq<EventValue>, ghost last: Option<EventValue>, ghost st0: DecoderState,
                       ghost prev: XefEvent?)
      returns (all': seq<XefEvent>, ghost values': seq<EventValue>, ghost last': Option<EventValue>, fault: Option<Fault>)
      requires Valid() && !endOfStream && Gathered(all, values, last, st0, prev)
      modifies this, stream, streams.Values
      ensures Valid() && RegistryGrew() && st0.pos <= |stream.input|
      ensures fault.Some? ==> var o := AllEvents(Src(), st0); o.Threw? && fault.value == o.fault && State() == o.st && CurrentIs(o.last, prev)
      ensures fault.None? ==> (old(Pos()) < Pos() || endOfStream) && old(Pos()) <= Pos()
      ensures fault.None? ==> Gathered(all', values', last', st0, prev)
    {
      ghost var n := NextEvent(Src(), State());
      ghost var before := streams;
      ghost var c := currentEvent;
      var e := GetNextEvent();
      CurrentLatest(prev, c, currentEvent, last, n.last, before, streams);
      if e.Failure? {
        return all, values, last, Some(e.error);
      }
      Collected(all, values, before, streams);
      all' := all;
      ghost var kept: seq<EventValue> := [];
      if e.value != null {
        all' := all + [e.value];
        kept := [n.value.value];
      }
      PrependPrepend(values, last, kept, n.last, AllEvents(Src(), State()));
      values' := values + kept;
      last' := Latest(last, n.last);
      fault := None;
    }

    /**
     * The filtered GetAllEvents: as GetAllEvents, but an event is kept only
     * when its stream has one of the given type ids.
     */
    method GetAllEventsOf(types: set<Guid>) returns (r: Result<seq<XefEvent>, Fault>)
      requires Valid()
      modifies this, stream, stream.buffer, streams.Values
      ensures Valid() && RegistryGrew()
      ensures old(stream.position) > eventStartAddress ==>
        r == Failure(PlainException) && State() == old(State()) && currentEvent == old(currentEvent)
      ensures old(stream.position) <= eventStartAddress ==>
        var o := AllEventsOf(Src(), types, old(State())); MatchesAll(r, o) && State() == o.st && CurrentIs(o.last, old(currentEvent))
    {
      var moved := stream.SetPosition(eventStartAddress);
      if moved.Some? {
        return Failure(moved.value);
      }
      r := CollectAllOf(types);
    }

    /** The loop of the filtered GetAllEvents, from the first event on. */
    method CollectAllOf(types: set<Guid>) returns (r: Result<seq<XefEvent>, Fault>)
      requires Valid()
      modifies this, stream, streams.Values
      ensures Valid() && RegistryGrew()
      ensures var o := AllEventsOf(Src(), types, old(State())); MatchesAll(r, o) && State() == o.st && CurrentIs(o.last, old(currentEvent))
    {
      ghost var st0 := State();
      PrependNothing(AllEventsOf(Src(), types, st0));
      var all: seq<XefEvent> := [];
      ghost var values: seq<EventValue> := [];
      ghost var last: Option<EventValue> := None;
      while !endOfStream
        invariant Valid() && RegistryGrew() && GatheredOf(types, all, values, last, st0, old(currentEvent))
        decreases |stream.input| - Pos(), if endOfStream then 0 else 1
      {
        ghost var before := streams;
        var fault;
        all, values, last, fault := CollectNextOf(types, all, values, last, st0, old(currentEvent));
        if fault.Some? {
          return Failure(fault.value);
        }
        ExtendsTransitive(old(streams), before, streams);
      }
      return Success(all);
    }

    /** The loop invariant of the filtered GetAllEvents, as Gathered with AllEventsOf. */
    ghost predicate GatheredOf(types: set<Guid>, all: seq<XefEvent>, values: seq<EventValue>, last: Option<EventValue>,
                               st0: DecoderState, prev: XefEvent?)
      reads this, stream
    {
      Pos() <= |stream.input| && st0.pos <= |stream.input|
      && |all| == |values| && (forall i :: 0 <= i < |all| ==> all[i].IsValue(values[i], streams))
      && Prepend(values, last, AllEventsOf(Src(), types, State())) == AllEventsOf(Src(), types, st0)
      && CurrentIs(last, prev)
    }

    /** One step of the filtered GetAllEvents: the next event, kept when it is of the given types. */
    method CollectNextOf(types: set<Guid>, all: seq<XefEvent>, ghost values: seq<EventValue>, ghost last: Option<EventValue>,
                         ghost st0: DecoderState, ghost prev: XefEvent?)
      returns (all': seq<XefEvent>, ghost values': seq<EventValue>, ghost last': Option<EventValue>, fault: Option<Fault>)
      requires Valid() && !endOfStream && GatheredOf(types, all, values, last, st0, prev)
      modifies this, stream, streams.Values
      ensures Valid() && RegistryGrew() && st0.pos <= |stream.input|
      ensures fault.Some? ==>
        var o := AllEventsOf(Src(), types, st0); o.Threw? && fault.value == o.fault && State() == o.st && CurrentIs(o.last, prev)
      ensures fault.None? ==> (old(Pos()) < Pos() || endOfStream) && old(Pos()) <= Pos()
      ensures fault.None? ==> GatheredOf(types, all', values', last', st0, prev)
    {
      ghost var n := NextEvent(Src(), State());
      ghost var before := streams;
      ghost var c := currentEvent;
      var e := GetNextEvent();
      CurrentLatest(prev, c, currentEvent, last, n.last, before, streams);
      if e.Failure? {
        return all, values, last, Some(e.error);
      }
      Collected(all, values, before, streams);
      all' := all;
      ghost var kept: seq<EventValue> := [];
      if e.value != null {
        e.value.OfTypesOfValue(n.value.value, streams, types);
        if e.value.OfTypes(types) {
          all' := all + [e.value];
          kept := [n.value.value];
        }
      }
      PrependPrepend(values, last, kept, n.last, AllEventsOf(Src(), types, State()));
      values' := values + kept;
      last' := Latest(last, n.last);
      fault := None;
    }

    /**
     * The filtered GetNextEvent: next events until one is null or belongs
     * to a stream of one of the given types; the others are dropped.
     */
    method GetNextEventOf(types: set<Guid>) returns (r: Result<XefEvent?, Fault>)
      requires Valid()
      modifies this, stream, streams.Values
      ensures Valid() && RegistryGrew()
      ensures var o := NextEventOf(Src(), types, old(State())); Matches(r, o) && State() == o.st && CurrentIs(o.last, old(currentEvent))
      ensures r.Success? && r.value != null ==> fresh(r.value)
    {
      ghost var st0 := State();
      ghost var p := st0;
      ghost var earlier: Option<EventValue> := None;
      ghost var c := currentEvent;
      r := GetNextEvent();
      while r.Success? && r.value != null && !r.value.OfTypes(types)
        invariant Valid() && RegistryGrew() && p.pos <= |stream.input|
        invariant var n := NextEvent(Src(), p); Matches(r, n) && State() == n.st && Current(currentEvent, n.last, c, streams)
        invariant NextEventOf(Src(), types, st0) == After(earlier, NextEventOf(Src(), types, p))
        invariant Current(c, earlier, old(currentEvent), streams)
        invariant r.Success? && r.value != null ==> fresh(r.value)
        decreases |stream.input| - Pos(), if r.Success? && r.value != null then 1 else 0
      {
        ghost var before := streams;
        r, p, earlier, c := DropEvent(types, r, p, earlier, c, st0, old(currentEvent));
        ExtendsTransitive(old(streams), before, streams);
      }
      ghost var n := NextEvent(Src(), p);
      if r.Success? && r.value != null {
        r.value.OfTypesOfValue(n.value.value, streams, types);
      }
      MatchesAfter(r, earlier, n);
      CurrentLatest(old(currentEvent), c, currentEvent, earlier, n.last, streams, streams);
    }

    /**
     * One step of the filtered GetNextEvent: an event of another type is
     * dropped and the next one read. CurrentEvent was c before that read.
     */
    method DropEvent(types: set<Guid>, r: Result<XefEvent?, Fault>, ghost p: DecoderState, ghost earlier: Option<EventValue>,
                     ghost c: XefEvent?, ghost st0: DecoderState, ghost prev: XefEvent?)
      returns (r': Result<XefEvent?, Fault>, ghost p': DecoderState, ghost earlier': Option<EventValue>, ghost c': XefEvent?)
      requires Valid() && p.pos <= |stream.input| && st0.pos <= |stream.input|
      requires var n := NextEvent(Src(), p); Matches(r, n) && State() == n.st && Current(currentEvent, n.last, c, streams)
      requires r.Success? && r.value != null && !r.value.OfTypes(types)
      requires NextEventOf(Src(), types, st0) == After(earlier, NextEventOf(Src(), types, p))
      requires Current(c, earlier, prev, streams)
      modifies this, stream, streams.Values
      ensures Valid() && RegistryGrew() && p'.pos <= |stream.input|
      ensures var n := NextEvent(Src(), p'); Matches(r', n) && State() == n.st && Current(currentEvent, n.last, c', streams)
      ensures NextEventOf(Src(), types, st0) == After(earlier', NextEventOf(Src(), types, p'))
      ensures Current(c', earlier', prev, streams)
      ensures r'.Success? && r'.value != null ==> fresh(r'.value) && old(Pos()) < Pos()
      ensures old(Pos()) <= Pos()
    {
      ghost var n := NextEvent(Src(), p);
      r.value.OfTypesOfValue(n.value.value, streams, types);
      AfterAfter(earlier, n.last, NextEventOf(Src(), types, n.st));
      CurrentLatest(prev, c, currentEvent, earlier, n.last, streams, streams);
      earlier' := Latest(earlier, n.last);
      p' := State();
      c' := currentEvent;
      ghost var before := streams;
      r' := GetNextEvent();
      CurrentKept(c', earlier', prev, before, streams);
    }
  }
}
