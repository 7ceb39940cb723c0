/**
 * XEFEventReader: the decoder over a seekable file. The cursor is the file
 * position; peeking reads the key and seeks back. Every decoding method is
 * proved to change the reader exactly as the matching function of
 * XefDecoding says, with checksLength set: this reader also ends the stream
 * when a data record ends exactly at the end of the file.
 */
module XefEventReaderModel {
  import opened Wrappers
  import opened Bytes
  import opened DataConstants
  import opened XefDecoding
  import opened XefObjects

  class XefEventReader {
    const layout: Layout
    const input: seq<Byte>                 // the file's bytes
    const totalReportedStreams: int
    const totalDataSize: int
    const eventStartAddress: nat
    var pos: nat                           // BaseStream.Position
    var endOfStream: bool
    var streamError: bool
    var streams: map<int, XefStream>       // _streams
    ghost var channels: map<int, Channel>  // the registry's streams as values

    ghost predicate Valid()
      reads this, streams.Values
    {
      pos <= |input| && eventStartAddress <= |input| && Injective(streams) && channels == Channels(streams)
    }

    function Src(): Source
    {
      Source(layout, input, true, false, totalReportedStreams)
    }

    ghost function State(): DecoderState
      reads this
    {
      DecoderState(pos, endOfStream, streamError, channels)
    }

    /** Whether a returned event (or null) is the decoder's value, or the same exception was thrown. */
    ghost predicate Matches(r: Result<XefEvent?, Fault>, o: Outcome<Option<EventValue>>)
      reads this
    {
      r.Success? == o.Returned?
      && (r.Success? ==> (r.value == null <==> o.value.None?) && (r.value != null ==> r.value.IsValue(o.value.value, streams)))
      && (r.Failure? ==> r.error == o.fault)
    }

    /** Whether a returned list is the decoder's list of values, or the same exception was thrown. */
    ghost predicate MatchesAll(r: Result<seq<XefEvent>, Fault>, o: Outcome<seq<EventValue>>)
      reads this
    {
      r.Success? == o.Returned?
      && (r.Success? ==> |r.value| == |o.value| && forall i :: 0 <= i < |r.value| ==> r.value[i].IsValue(o.value[i], streams))
      && (r.Failure? ==> r.error == o.fault)
    }

    /** The event an outcome carries does not depend on what earlier steps decoded. */
    lemma MatchesAfter(r: Result<XefEvent?, Fault>, l: Option<EventValue>, o: Outcome<Option<EventValue>>)
      requires Matches(r, o)
      ensures Matches(r, After(l, o)) && After(l, o).st == o.st
    {
    }

    /** A registry that only gained fresh streams. */
    twostate predicate RegistryGrew()
      reads this
    {
      Extends(old(streams), streams) && (forall s :: s in streams.Values ==> s in old(streams).Values || fresh(s))
    }

    /** The methods that only read: everything but the cursor stays put. */
    twostate predicate OnlyCursorMoved()
      reads this
    {
      endOfStream == old(endOfStream) && streamError == old(streamError) && streams == old(streams)
      && channels == old(channels)
    }

    static predicate HeaderFits(layout: Layout, input: seq<Byte>)
    {
      layout.streamCountAddress + 12 <= |input|
    }

    /**
     * The constructor and ReadHeader: the stream count at STREAM_COUNT_ADDRESS,
     * corrected, then the total data size; events start right after them.
     */
    constructor(layout: Layout, input: seq<Byte>)
      requires HeaderFits(layout, input)
      ensures this.layout == layout && this.input == input
      ensures totalReportedStreams == ReportedStreams(I32At(input, layout.streamCountAddress))
      ensures totalDataSize == I64At(input, layout.streamCountAddress + 4)
      ensures pos == eventStartAddress == layout.streamCountAddress + 12
      ensures !endOfStream && !streamError && streams == map[]
      ensures Valid()
    {
      this.layout := layout;
      this.input := input;
      totalReportedStreams := ReportedStreams(I32At(input, layout.streamCountAddress));
      totalDataSize := I64At(input, layout.streamCountAddress + 4);
      eventStartAddress := layout.streamCountAddress + 12;
      pos := layout.streamCountAddress + 12;
      endOfStream := false;
      streamError := false;
      streams := map[];
      channels := map[];
    }

    /** Opening a file too short for the header throws EndOfStreamException from ReadHeader. */
    static method Open(layout: Layout, input: seq<Byte>) returns (r: Result<XefEventReader, Fault>)
      ensures r.Failure? <==> !HeaderFits(layout, input)
      ensures r.Failure? ==> r.error == EndOfStream
      ensures r.Success? ==> fresh(r.value) && r.value.Valid() && r.value.layout == layout && r.value.input == input
      ensures r.Success? ==> r.value.pos == r.value.eventStartAddress && r.value.streams == map[]
      ensures r.Success? ==> !r.value.endOfStream && !r.value.streamError
      ensures r.Success? ==>
        var a := layout.streamCountAddress;
        r.value.eventStartAddress == a + 12
        && r.value.totalReportedStreams == ReportedStreams(I32At(input, a))
        && r.value.totalDataSize == I64At(input, a + 4)
    {
      if !HeaderFits(layout, input) {
        return Failure(EndOfStream);
      }
      var reader := new XefEventReader(layout, input);
      return Success(reader);
    }

    /** StreamCount: the larger of the registry's size and the reported count. */
    function StreamCount(): (r: int)
      reads this
      ensures r >= |streams| && r >= totalReportedStreams
      ensures r == |streams| || r == totalReportedStreams
    {
      if |streams| > totalReportedStreams then |streams| else totalReportedStreams
    }

    // ----- BinaryReader primitives -----

    /** A fixed-width read: its bytes, or EndOfStreamException after consuming what is left. */
    method ReadFixed(n: nat) returns (b: Option<seq<Byte>>)
      requires Valid()
      modifies this
      ensures Valid() && OnlyCursorMoved()
      ensures old(pos) + n <= |input| ==> b == Some(input[old(pos)..old(pos) + n]) && pos == old(pos) + n
      ensures old(pos) + n > |input| ==> b.None? && pos == |input|
    {
      if pos + n <= |input| {
        b := Some(input[pos..pos + n]);
        pos := pos + n;
      } else {
        b := None;
        pos := |input|;
      }
    }

    /** ReadBytes: as many of count bytes as remain; a negative count throws. */
    method ReadBytes(count: int) returns (r: Result<seq<Byte>, Fault>)
      requires Valid()
      modifies this
      ensures Valid() && OnlyCursorMoved()
      ensures count < 0 ==> r == Failure(ArgumentOutOfRange) && pos == old(pos)
      ensures count >= 0 ==> r == Success(Take(input, old(pos), count)) && pos == old(pos) + |r.value|
    {
      if count < 0 {
        return Failure(ArgumentOutOfRange);
      }
      var b := Take(input, pos, count);
      pos := pos + |b|;
      return Success(b);
    }

    /** The key and the four header fields, read one by one. */
    method ReadRecordHeader() returns (h: Option<RecordHeader>)
      requires Valid()
      modifies this
      ensures Valid() && OnlyCursorMoved()
      ensures old(pos) + 24 <= |input| ==> pos == old(pos) + 24 && h == Some(HeaderAt(input, old(pos)))
      ensures old(pos) + 24 > |input| ==> h.None? && pos == |input|
    {
      var p := pos;
      var streamIndex := ReadFixed(2);
      var streamFlags := ReadFixed(2);
      var dataSize := ReadFixed(4);
      var ticks := ReadFixed(8);
      var unknown := ReadFixed(4);
      var fullDataSize := ReadFixed(4);
      if fullDataSize.None? {
        return None;
      }
      assert p + 24 <= |input|;
      return Some(HeaderAt(input, p));
    }

    /** PeekEventKey: read the key and seek back. */
    method PeekEventKey() returns (r: Result<Key, Fault>)
      requires Valid()
      modifies this
      ensures Valid() && OnlyCursorMoved()
      ensures old(pos) + 4 <= |input| ==> r == Success(KeyAt(input, old(pos))) && pos == old(pos)
      ensures old(pos) + 4 > |input| ==> r == Failure(EndOfStream) && pos == |input|
    {
      var p := pos;
      var key := ReadFixed(4);
      if key.None? {
        return Failure(EndOfStream);
      }
      pos := pos - 4;
      return Success(KeyAt(input, p));
    }

    // ----- decoding -----

    /** ReadDataEvent: one framed record, with ReadRecord's outcome. */
    method ReadDataEvent() returns (r: Result<XefEvent?, Fault>)
      requires Valid()
      modifies this, streams.Values
      ensures Valid() && streams == old(streams)
      ensures var o := ReadRecord(Src(), old(State())); Matches(r, o) && State() == o.st
      ensures r.Success? && r.value != null ==> fresh(r.value)
    {
      if endOfStream {
        return Success(null);
      }
      ghost var st := State();
      var header := ReadRecordHeader();
      if header.None? {
        endOfStream := true;
        streamError := true;
        return Success(null);
      }
      r := ReadEventBody(header.value, st);
    }

    /** The part of ReadDataEvent after the header h of a record that starts at st.pos. */
    method ReadEventBody(h: RecordHeader, ghost st: DecoderState) returns (r: Result<XefEvent?, Fault>)
      requires Valid() && st.pos + 24 == pos && State() == st.(pos := pos)
      modifies this, streams.Values
      ensures Valid() && streams == old(streams)
      ensures var o := RecordAfterHeader(Src(), st, h); Matches(r, o) && State() == o.st
      ensures r.Success? && r.value != null ==> fresh(r.value)
    {
      ghost var o := RecordAfterHeader(Src(), st, h);
      var eventStream: XefStream? := null;
      if h.key.index in streams {
        eventStream := streams[h.key.index];
      }
      var tagData, frameIndex, tagFault := ReadEventTag(eventStream, h.key.index);
      if tagFault {
        var fault := ConverterFault(TagLength(tagData), 0, 4);
        assert o == Threw(fault, st.(pos := pos), None);
        return Failure(fault);
      }
      assert o == RecordAfterTag(Src(), st, h, tagData);
      r := ReadEventPayload(eventStream, h, tagData, frameIndex, st);
    }

    /** The payload step of ReadDataEvent, once the tag is read, up to the new XEFEvent. */
    method ReadEventPayload(eventStream: XefStream?, h: RecordHeader, tagData: Option<seq<Byte>>, frameIndex: int, ghost st: DecoderState)
      returns (r: Result<XefEvent?, Fault>)
      requires Valid() && pos == st.pos + 24 + TagLength(tagData) && State() == st.(pos := pos)
      requires eventStream == (if h.key.index in streams then streams[h.key.index] else null)
      requires TagIsFrameIndex(channels, h.key.index) ==> TagLength(tagData) >= 4
      requires frameIndex == if TagIsFrameIndex(channels, h.key.index) then I32At(tagData.value, 0) else 0
      modifies this, streams.Values
      ensures Valid() && streams == old(streams)
      ensures var o := RecordAfterTag(Src(), st, h, tagData); Matches(r, o) && State() == o.st
      ensures r.Success? && r.value != null ==> fresh(r.value)
    {
      ghost var o := RecordAfterTag(Src(), st, h, tagData);
      var eventData := ReadBytes(h.dataSize);
      if eventData.Failure? {
        assert o == Threw(ArgumentOutOfRange, st.(pos := pos), None);
        return Failure(eventData.error);
      }
      r := FinishEvent(eventStream, h, tagData, frameIndex, eventData.value, st);
    }

    /** The end of ReadDataEvent, once the payload data is read: the end-of-file check and the new XEFEvent. */
    method FinishEvent(eventStream: XefStream?, h: RecordHeader, tagData: Option<seq<Byte>>, frameIndex: int, data: seq<Byte>,
                       ghost st: DecoderState)
      returns (r: Result<XefEvent?, Fault>)
      requires Valid() && st.pos + 24 + TagLength(tagData) <= |input| && h.dataSize >= 0
      requires data == Take(input, st.pos + 24 + TagLength(tagData), h.dataSize)
      requires pos == st.pos + 24 + TagLength(tagData) + |data| && State() == st.(pos := pos)
      requires eventStream == (if h.key.index in streams then streams[h.key.index] else null)
      requires TagIsFrameIndex(channels, h.key.index) ==> TagLength(tagData) >= 4
      requires frameIndex == if TagIsFrameIndex(channels, h.key.index) then I32At(tagData.value, 0) else 0
      modifies this, streams.Values
      ensures Valid() && streams == old(streams)
      ensures var o := RecordAfterTag(Src(), st, h, tagData); Matches(r, o) && State() == o.st
      ensures r.Success? && r.value != null ==> fresh(r.value)
    {
      EndAtEndOfFile();
      ghost var e := NewEvent(st.channels, h, tagData, data);
      ghost var st' := st.(pos := pos, endOfStream := endOfStream, channels := Counted(st.channels, h.key.index));
      assert RecordAfterTag(Src(), st, h, tagData) == Returned(Some(e), st', Some(e));
      r := NewXefEvent(eventStream, h, frameIndex, tagData, data);
      assert State() == st';
    }

    /** The seekable reader's check after a payload: a record that ends the file ends the stream. */
    method EndAtEndOfFile()
      requires Valid()
      modifies this
      ensures Valid() && pos == old(pos) && streamError == old(streamError) && streams == old(streams) && channels == old(channels)
      ensures endOfStream == (old(endOfStream) || pos == |input|)
    {
      if pos == |input| {
        endOfStream := true;
      }
    }

    /**
     * The tag step of ReadDataEvent: TagSize bytes for a registered stream
     * (read as the frame number when 4 long; a shorter read throws), the
     * default tag length for an unregistered index.
     */
    method ReadEventTag(eventStream: XefStream?, index: int) returns (tagData: Option<seq<Byte>>, frameIndex: int, tagFault: bool)
      requires Valid()
      requires eventStream == (if index in streams then streams[index] else null)
      modifies this
      ensures Valid() && OnlyCursorMoved()
      ensures tagData == ReadTag(Src(), channels, index, old(pos))
      ensures pos == old(pos) + TagLength(tagData)
      ensures tagFault <==> TagIsFrameIndex(channels, index) && TagLength(tagData) < 4
      ensures !tagFault ==> frameIndex == if TagIsFrameIndex(channels, index) then I32At(tagData.value, 0) else 0
    {
      tagData, frameIndex, tagFault := None, 0, false;
      if eventStream != null {
        if eventStream.tagSize > 0 {
          var tag := ReadBytes(eventStream.tagSize);
          tagData := Some(tag.value);
          if eventStream.tagSize == 4 {
            if |tag.value| < 4 {
              tagFault := true;
              return;
            }
            frameIndex := I32At(tag.value, 0);
          }
        }
      } else {
        var tag := ReadBytes(layout.defaultTagSize);
        tagData := Some(tag.value);
      }
    }

    /** The new XEFEvent, which counts itself on its stream. */
    method NewXefEvent(eventStream: XefStream?, h: RecordHeader, frameIndex: int, tagData: Option<seq<Byte>>, eventData: seq<Byte>)
      returns (r: Result<XefEvent?, Fault>)
      requires Valid()
      requires eventStream == (if h.key.index in streams then streams[h.key.index] else null)
      requires TagIsFrameIndex(channels, h.key.index) ==> TagLength(tagData) >= 4
      requires frameIndex == if TagIsFrameIndex(channels, h.key.index) then I32At(tagData.value, 0) else 0
      modifies this, streams.Values
      ensures Valid() && streams == old(streams) && pos == old(pos)
      ensures endOfStream == old(endOfStream) && streamError == old(streamError)
      ensures channels == Counted(old(channels), h.key.index)
      ensures r.Success? && r.value != null && fresh(r.value)
      ensures r.value.IsValue(NewEvent(old(channels), h, tagData, eventData), streams)
    {
      ghost var before := channels;
      var e := new XefEvent(eventStream, frameIndex, h.ticks, h.fullDataSize, tagData, eventData, h.unknown);
      if eventStream != null {
        forall j | j in streams && j != h.key.index
          ensures streams[j].Snapshot() == before[j]
        {
          assert streams[j] != eventStream;
        }
        ChannelsCounted(streams, h.key.index, before);
      }
      channels := Counted(channels, h.key.index);
      return Success(e);
    }

    /** ReadStreamDescription, with ReadDescription's outcome; the new stream is not yet registered. */
    method ReadStreamDescription() returns (r: Result<XefStream, Fault>)
      requires Valid()
      modifies this, streams.Values
      ensures Valid() && streams == old(streams)
      ensures var o := ReadDescription(Src(), old(State()));
        r.Success? == o.Returned? && State() == o.st
        && (r.Success? ==> fresh(r.value) && r.value.Snapshot() == o.value)
        && (r.Failure? ==> r.error == o.fault)
    {
      ghost var st := State();
      ghost var first := ReadRecord(Src(), st);
      var nameEvent := ReadDataEvent();
      r := DescribeFromName(nameEvent, st, first);
    }

    /** The checks on the name record ReadDataEvent returned with outcome first. */
    method DescribeFromName(nameEvent: Result<XefEvent?, Fault>, ghost st: DecoderState, ghost first: Outcome<Option<EventValue>>)
      returns (r: Result<XefStream, Fault>)
      requires Valid() && Matches(nameEvent, first) && State() == first.st
      requires st.pos <= first.st.pos <= |input| && first.st.channels.Keys == st.channels.Keys
      requires first.Returned? && first.value.Some? ==> st.pos + 24 <= first.st.pos
      modifies this, streams.Values
      ensures Valid() && streams == old(streams)
      ensures var o := DescriptionAfterName(Src(), st, first);
        r.Success? == o.Returned? && State() == o.st
        && (r.Success? ==> fresh(r.value) && r.value.Snapshot() == o.value)
        && (r.Failure? ==> r.error == o.fault)
    {
      if nameEvent.Failure? {
        return Failure(nameEvent.error);
      }
      if nameEvent.value == null {
        return Failure(NullReference);
      }
      var tag := nameEvent.value.tagData;
      var data := nameEvent.value.eventData;
      var fault := NameRecordFault(layout, tag, data);
      if fault.Some? {
        return Failure(fault.value);
      }
      r := DescribeFromFields(tag.value, data, first.last);
    }

    /** The fields of a name record that holds them, the skip, the Guid record and the new stream. */
    method DescribeFromFields(tag: seq<Byte>, data: seq<Byte>, ghost l: Option<EventValue>) returns (r: Result<XefStream, Fault>)
      requires Valid() && NameRecordFits(layout, tag, data)
      modifies this, streams.Values
      ensures Valid() && streams == old(streams)
      ensures var o := DescriptionFromName(Src(), old(State()), l, tag, data);
        r.Success? == o.Returned? && State() == o.st
        && (r.Success? ==> fresh(r.value) && r.value.Snapshot() == o.value)
        && (r.Failure? ==> r.error == o.fault)
    {
      var streamIndex := I16At(tag, layout.streamIndexOffset);
      var streamFlags := I16At(tag, layout.streamFlagsOffset);
      var compressed := IsCompressed(layout, streamFlags);
      var dataTypeId: Guid := tag[layout.typeIdOffset..layout.typeIdOffset + 16];
      var dataTypeName := data[..layout.nameSize];
      var tagSize := I16At(data, layout.tagSizeOffset);
      if compressed {
        var _ := ReadBytes(layout.compressedExtraSize);
      }
      assert State() == SkipCompressedExtra(Src(), old(State()), tag);
      var guidEvent := ReadDataEvent();
      if guidEvent.Failure? {
        return Failure(guidEvent.error);
      }
      if !SemanticIdFits(layout, data) {
        return Failure(Argument);
      }
      var semanticId: Guid := data[layout.semanticIdOffset..layout.semanticIdOffset + 16];
      var s := new XefStream(streamIndex, streamFlags, tagSize, dataTypeName, dataTypeId, semanticId);
      return Success(s);
    }

    /** ReadUnknownEvent: the three probes of SkipUnknown; a failed read escapes as EndOfStreamException. */
    method ReadUnknownEvent() returns (fault: Option<Fault>)
      requires Valid()
      modifies this
      ensures Valid() && OnlyCursorMoved()
      ensures var o := SkipUnknown(Src(), old(State()));
        (fault.None? <==> o.Returned?) && (fault.Some? ==> fault.value == o.fault) && State() == o.st
    {
      var header := ReadRecordHeader();
      if header.None? {
        return Some(EndOfStream);
      }
      var peek := SkipAndPeek(0x6000);
      if peek.Failure? {
        return Some(peek.error);
      }
      if !IsValidStreamIndex(Src(), peek.value.index) {
        peek := SkipAndPeek(0x1000);
        if peek.Failure? {
          return Some(peek.error);
        }
        if !IsValidStreamIndex(Src(), peek.value.index) {
          peek := SkipAndPeek(0x5000);
          if peek.Failure? {
            return Some(peek.error);
          }
        }
      }
      return None;
    }

    /** A skip of n bytes with ReadBytes, then PeekEventKey at where it stopped. */
    method SkipAndPeek(n: nat) returns (r: Result<Key, Fault>)
      requires Valid()
      modifies this
      ensures Valid() && OnlyCursorMoved()
      ensures old(pos) + n + 4 <= |input| ==> r == Success(KeyAt(input, old(pos) + n)) && pos == old(pos) + n
      ensures old(pos) + n + 4 > |input| ==> r == Failure(EndOfStream) && pos == |input|
    {
      var _ := ReadBytes(n);
      r := PeekEventKey();
    }

    /** GetNextEvent, with NextEvent's outcome. */
    method GetNextEvent() returns (r: Result<XefEvent?, Fault>)
      requires Valid()
      modifies this, streams.Values
      decreases |input| - pos, if endOfStream then 0 else 1
      ensures Valid() && RegistryGrew()
      ensures var o := NextEvent(Src(), old(State())); Matches(r, o) && State() == o.st
      ensures r.Success? && r.value != null ==> fresh(r.value)
    {
      if endOfStream {
        return Success(null);
      }
      ghost var st := State();
      ghost var o := NextEvent(Src(), st);
      var key := PeekEventKey();
      if key.Failure? {
        return Failure(key.error);
      }
      if key.value.index == layout.unknownRecordIndex {
        ghost var skip := SkipUnknown(Src(), st);
        var fault := ReadUnknownEvent();
        if fault.Some? {
          assert o == Threw(skip.fault, skip.st, skip.last);
          return Failure(fault.value);
        }
        assert o == NextEvent(Src(), skip.st);
        r := GetNextEvent();
      } else if key.value.index == FooterIndex(totalReportedStreams) {
        endOfStream := true;
        return Success(null);
      } else if key.value.index !in streams {
        assert o == NextAfterDescription(Src(), st, key.value.index, ReadDescription(Src(), st));
        r := DescribeAndContinue(key.value.index);
      } else {
        assert o == ReadRecord(Src(), st);
        r := ReadDataEvent();
      }
    }

    /**
     * GetNextEvent's description branch: read the description of a new
     * stream at the cursor, register it under index, then decode on.
     */
    method DescribeAndContinue(index: int) returns (r: Result<XefEvent?, Fault>)
      requires Valid() && index !in streams
      modifies this, streams.Values
      decreases |input| - pos, 0
      ensures Valid() && RegistryGrew()
      ensures var o := NextAfterDescription(Src(), old(State()), index, ReadDescription(Src(), old(State())));
        Matches(r, o) && State() == o.st
      ensures r.Success? && r.value != null ==> fresh(r.value)
    {
      ghost var st := State();
      ghost var d := ReadDescription(Src(), st);
      var description := ReadStreamDescription();
      if description.Failure? {
        return Failure(description.error);
      }
      r := RegisterAndContinue(index, description.value, st, d);
    }

    /** _streams.Add: a stream object not yet registered goes in under a free index. */
    method Register(index: int, s: XefStream)
      requires Valid() && index !in streams && s !in streams.Values
      modifies this
      ensures Valid() && streams == old(streams)[index := s]
      ensures State() == old(State()).(channels := old(channels)[index := s.Snapshot()])
    {
      ChannelsAdd(streams, index, s);
      InjectiveAdd(streams, index, s);
      streams := streams[index := s];
      channels := channels[index := s.Snapshot()];
    }

    /**
     * The rest of GetNextEvent's description branch: register the stream s
     * that the description read from st with outcome d, then decode on.
     */
    method RegisterAndContinue(index: int, s: XefStream, ghost st: DecoderState, ghost d: Outcome<Channel>)
      returns (r: Result<XefEvent?, Fault>)
      requires Valid() && index !in streams && s !in streams.Values
      requires st.pos <= d.st.pos <= |input| && st.channels.Keys == d.st.channels.Keys && d.Returned? && st.pos + 24 <= d.st.pos
      requires State() == d.st && s.Snapshot() == d.value
      modifies this, streams.Values, s
      decreases |input| - pos, 2
      ensures Valid() && Extends(old(streams), streams) && index in streams && streams[index] == s
      ensures forall t :: t in streams.Values ==> t in old(streams).Values || t == s || fresh(t)
      ensures var o := NextAfterDescription(Src(), st, index, d); Matches(r, o) && State() == o.st
      ensures r.Success? && r.value != null ==> fresh(r.value)
    {
      Register(index, s);
      ghost var registered := streams;
      ghost var n := NextEvent(Src(), State());
      r := GetNextEvent();
      MatchesAfter(r, d.last, n);
      ExtendsTransitive(old(streams), registered, streams);
    }

    /**
     * GetAllEvents: seek back to the first event, then collect every
     * non-null event until the end of the stream. Neither the flags nor the
     * registry are reset.
     */
    method GetAllEvents() returns (r: Result<seq<XefEvent>, Fault>)
      requires Valid()
      modifies this, streams.Values
      ensures Valid() && RegistryGrew()
      ensures var o := AllEvents(Src(), old(State()).(pos := eventStartAddress)); MatchesAll(r, o) && State() == o.st
    {
      pos := eventStartAddress;
      ghost var st0 := State();
      PrependNothing(AllEvents(Src(), st0));
      var all: seq<XefEvent> := [];
      ghost var values: seq<EventValue> := [];
      ghost var last: Option<EventValue> := None;
      while !endOfStream
        invariant Valid() && RegistryGrew()
        invariant |all| == |values| && forall i :: 0 <= i < |all| ==> all[i].IsValue(values[i], streams)
        invariant Prepend(values, last, AllEvents(Src(), State())) == AllEvents(Src(), st0)
        decreases |input| - pos, if endOfStream then 0 else 1
      {
        ghost var before := streams;
        var fault;
        all, values, last, fault := CollectNext(all, values, last, st0);
        if fault.Some? {
          return Failure(fault.value);
        }
        ExtendsTransitive(old(streams), before, streams);
      }
      return Success(all);
    }

    /** One step of GetAllEvents: the next event, kept when it is not null. */
    method CollectNext(all: seq<XefEvent>, ghost values: seq<EventValue>, ghost last: Option<EventValue>, ghost st0: DecoderState)
      returns (all': seq<XefEvent>, ghost values': seq<EventValue>, ghost last': Option<EventValue>, fault: Option<Fault>)
      requires Valid() && !endOfStream && st0.pos <= |input|
      requires |all| == |values| && forall i :: 0 <= i < |all| ==> all[i].IsValue(values[i], streams)
      requires Prepend(values, last, AllEvents(Src(), State())) == AllEvents(Src(), st0)
      modifies this, streams.Values
      ensures Valid() && RegistryGrew()
      ensures fault.Some? ==> var o := AllEvents(Src(), st0); o.Threw? && fault.value == o.fault && State() == o.st
      ensures fault.None? ==> (old(pos) < pos || endOfStream) && old(pos) <= pos
      ensures fault.None? ==> |all'| == |values'| && (forall i :: 0 <= i < |all'| ==> all'[i].IsValue(values'[i], streams))
      ensures fault.None? ==> Prepend(values', last', AllEvents(Src(), State())) == AllEvents(Src(), st0)
    {
      ghost var n := NextEvent(Src(), State());
      ghost var before := streams;
      var e := GetNextEvent();
      if e.Failure? {
        return all, values, last, Some(e.error);
      }
      Collected(all, values, before, streams);
      all' := all;
      ghost var kept: seq<EventValue> := [];
      if e.value != null {
        all' := all + [e.value];
        kept := [n.value.value];
      }
      PrependPrepend(values, last, kept, n.last, AllEvents(Src(), State()));
      values' := values + kept;
      last' := Latest(last, n.last);
      fault := None;
    }

    /**
     * The filtered GetNextEvent: next events until one is null or belongs
     * to a stream of one of the given types; the others are dropped.
     */
    method GetNextEventOf(types: set<Guid>) returns (r: Result<XefEvent?, Fault>)
      requires Valid()
      modifies this, streams.Values
      ensures Valid() && RegistryGrew()
      ensures var o := NextEventOf(Src(), types, old(State())); Matches(r, o) && State() == o.st
      ensures r.Success? && r.value != null ==> fresh(r.value)
    {
      ghost var st0 := State();
      ghost var p := st0;
      ghost var earlier: Option<EventValue> := None;
      r := GetNextEvent();
      while r.Success? && r.value != null && !r.value.OfTypes(types)
        invariant Valid() && RegistryGrew() && p.pos <= |input|
        invariant var n := NextEvent(Src(), p); Matches(r, n) && State() == n.st
        invariant NextEventOf(Src(), types, st0) == After(earlier, NextEventOf(Src(), types, p))
        invariant r.Success? && r.value != null ==> fresh(r.value)
        decreases |input| - pos, if r.Success? && r.value != null then 1 else 0
      {
        ghost var before := streams;
        r, p, earlier := DropEvent(types, r, p, earlier, st0);
        ExtendsTransitive(old(streams), before, streams);
      }
      ghost var n := NextEvent(Src(), p);
      if r.Success? && r.value != null {
        r.value.OfTypesOfValue(n.value.value, streams, types);
      }
      MatchesAfter(r, earlier, n);
    }

    /** One step of the filtered GetNextEvent: an event of another type is dropped and the next one read. */
    method DropEvent(types: set<Guid>, r: Result<XefEvent?, Fault>, ghost p: DecoderState, ghost earlier: Option<EventValue>,
                     ghost st0: DecoderState)
      returns (r': Result<XefEvent?, Fault>, ghost p': DecoderState, ghost earlier': Option<EventValue>)
      requires Valid() && p.pos <= |input| && st0.pos <= |input|
      requires var n := NextEvent(Src(), p); Matches(r, n) && State() == n.st
      requires r.Success? && r.value != null && !r.value.OfTypes(types)
      requires NextEventOf(Src(), types, st0) == After(earlier, NextEventOf(Src(), types, p))
      modifies this, streams.Values
      ensures Valid() && RegistryGrew() && p'.pos <= |input|
      ensures var n := NextEvent(Src(), p'); Matches(r', n) && State() == n.st
      ensures NextEventOf(Src(), types, st0) == After(earlier', NextEventOf(Src(), types, p'))
      ensures r'.Success? && r'.value != null ==> fresh(r'.value) && old(pos) < pos
      ensures old(pos) <= pos
    {
      ghost var n := NextEvent(Src(), p);
      r.value.OfTypesOfValue(n.value.value, streams, types);
      AfterAfter(earlier, n.last, NextEventOf(Src(), types, n.st));
      earlier' := Latest(earlier, n.last);
      p' := State();
      r' := GetNextEvent();
    }

    /**
     * The filtered GetAllEvents: seek back to the first event, then collect
     * the events of streams of the given types until the end of the stream.
     */
    method GetAllEventsOf(types: set<Guid>) returns (r: Result<seq<XefEvent>, Fault>)
      requires Valid()
      modifies this, streams.Values
      ensures Valid() && RegistryGrew()
      ensures var o := AllEventsOf(Src(), types, old(State()).(pos := eventStartAddress)); MatchesAll(r, o) && State() == o.st
    {
      pos := eventStartAddress;
      ghost var st0 := State();
      PrependNothing(AllEventsOf(Src(), types, st0));
      var all: seq<XefEvent> := [];
      ghost var values: seq<EventValue> := [];
      ghost var last: Option<EventValue> := None;
      while !endOfStream
        invariant Valid() && RegistryGrew()
        invariant |all| == |values| && forall i :: 0 <= i < |all| ==> all[i].IsValue(values[i], streams)
        invariant Prepend(values, last, AllEventsOf(Src(), types, State())) == AllEventsOf(Src(), types, st0)
        decreases |input| - pos, if endOfStream then 0 else 1
      {
        ghost var before := streams;
        var fault;
        all, values, last, fault := CollectNextOf(types, all, values, last, st0);
        if fault.Some? {
          return Failure(fault.value);
        }
        ExtendsTransitive(old(streams), before, streams);
      }
      return Success(all);
    }

    /** One step of the filtered GetAllEvents: the next event, kept when its stream is of one of the types. */
    method CollectNextOf(types: set<Guid>, all: seq<XefEvent>, ghost values: seq<EventValue>, ghost last: Option<EventValue>,
                         ghost st0: DecoderState)
      returns (all': seq<XefEvent>, ghost values': seq<EventValue>, ghost last': Option<EventValue>, fault: Option<Fault>)
      requires Valid() && !endOfStream && st0.pos <= |input|
      requires |all| == |values| && forall i :: 0 <= i < |all| ==> all[i].IsValue(values[i], streams)
      requires Prepend(values, last, AllEventsOf(Src(), types, State())) == AllEventsOf(Src(), types, st0)
      modifies this, streams.Values
      ensures Valid() && RegistryGrew()
      ensures fault.Some? ==> var o := AllEventsOf(Src(), types, st0); o.Threw? && fault.value == o.fault && State() == o.st
      ensures fault.None? ==> (old(pos) < pos || endOfStream) && old(pos) <= pos
      ensures fault.None? ==> |all'| == |values'| && (forall i :: 0 <= i < |all'| ==> all'[i].IsValue(values'[i], streams))
      ensures fault.None? ==> Prepend(values', last', AllEventsOf(Src(), types, State())) == AllEventsOf(Src(), types, st0)
    {
      ghost var n := NextEvent(Src(), State());
      ghost var before := streams;
      var e := GetNextEvent();
      if e.Failure? {
        return all, values, last, Some(e.error);
      }
      Collected(all, values, before, streams);
      all' := all;
      ghost var kept: seq<EventValue> := [];
      if e.value != null {
        e.value.OfTypesOfValue(n.value.value, streams, types);
        if e.value.OfTypes(types) {
          all' := all + [e.value];
          kept := [n.value.value];
        }
      }
      PrependPrepend(values, last, kept, n.last, AllEventsOf(Src(), types, State()));
      values' := values + kept;
      last' := Latest(last, n.last);
      fault := None;
    }
  }
}
