/**
 * XEFStream and XEFEvent: a registered stream with its running event counter,
 * and a decoded record that takes the counter's value as its index.
 */
module XefObjects {
  import opened Wrappers
  import opened Bytes
  import opened XefDecoding
  import opened DataConstants

  /** The registry as the decoder's state records it. */
  ghost function Channels(streams: map<int, XefStream>): (r: map<int, Channel>)
    reads streams.Values
    ensures r.Keys == streams.Keys
  {
    map k | k in streams :: streams[k].Snapshot()
  }

  /** No stream object is registered under two indices. */
  ghost predicate Injective(streams: map<int, XefStream>)
  {
    forall i, j :: i in streams && j in streams && i != j ==> streams[i] != streams[j]
  }

  /** Whether registry b keeps every entry of registry a. */
  ghost predicate Extends(a: map<int, XefStream>, b: map<int, XefStream>)
  {
    forall k :: k in a ==> k in b && b[k] == a[k]
  }

  lemma ExtendsTransitive(a: map<int, XefStream>, b: map<int, XefStream>, c: map<int, XefStream>)
    requires Extends(a, b) && Extends(b, c)
    ensures Extends(a, c)
  {
  }

  /**
   * An event counted on the stream registered under k, every other stream
   * as the registry before recorded it: the registry changes as Counted says.
   */
  lemma ChannelsCounted(streams: map<int, XefStream>, k: int, before: map<int, Channel>)
    requires k in streams && before.Keys == streams.Keys
    requires forall j :: j in streams && j != k ==> streams[j].Snapshot() == before[j]
    requires streams[k].Snapshot() == before[k].(eventCount := Wrap32(before[k].eventCount + 1))
    ensures Channels(streams) == Counted(before, k)
  {
  }

  /** Registering a stream adds its snapshot to the registry's values. */
  lemma ChannelsAdd(streams: map<int, XefStream>, k: int, s: XefStream)
    ensures Channels(streams[k := s]) == Channels(streams)[k := s.Snapshot()]
  {
  }

  /** Registering a stream object not yet registered keeps the registry injective. */
  lemma InjectiveAdd(streams: map<int, XefStream>, k: int, s: XefStream)
    requires Injective(streams) && k !in streams && s !in streams.Values
    ensures Injective(streams[k := s])
  {
  }

  /**
   * A stream made from a name record answers Name and ToString with the
   * name block at the start of the record's payload.
   */
  lemma NameOfDescription(s: XefStream, l: Layout, tag: seq<Byte>, data: seq<Byte>)
    requires NameRecordFits(l, tag, data) && SemanticIdFits(l, data)
    requires s.Snapshot() == DescribedChannel(l, tag, data)
    ensures s.Name() == s.ToString() == data[..l.nameSize]
  {
  }

  /** One more event collected: the registry kept every entry, so earlier events keep their values. */
  lemma Collected(all: seq<XefEvent>, values: seq<EventValue>, before: map<int, XefStream>, after: map<int, XefStream>)
    requires |all| == |values| && Extends(before, after)
    requires forall i :: 0 <= i < |all| ==> all[i].IsValue(values[i], before)
    ensures forall i :: 0 <= i < |all| ==> all[i].IsValue(values[i], after)
  {
    forall i | 0 <= i < |all|
      ensures all[i].IsValue(values[i], after)
    {
      all[i].IsValueExtends(values[i], before, after);
    }
  }

  class XefStream {
    const streamIndex: int
    const flags: int
    const tagSize: int
    const dataTypeName: seq<Byte>      // the UTF-16 name block, kept undecoded
    const dataTypeId: Guid
    const semanticId: Guid
    /** No assignment to IsCompressed exists, so it keeps its default. */
    const isCompressed: bool := false
    var eventCount: int

    /** A new stream stores what it is given and has seen no events. */
    constructor(index: int, flags: int, tagSize: int, dataTypeName: seq<Byte>, dataTypeId: Guid, semanticId: Guid)
      ensures streamIndex == index && this.flags == flags && this.tagSize == tagSize
      ensures this.dataTypeName == dataTypeName && this.dataTypeId == dataTypeId && this.semanticId == semanticId
      ensures eventCount == 0
    {
      streamIndex := index;
      this.flags := flags;
      this.tagSize := tagSize;
      this.dataTypeName := dataTypeName;
      this.dataTypeId := dataTypeId;
      this.semanticId := semanticId;
      eventCount := 0;
    }

    /** EventCount++ on an int: one more, wrapping at int.MaxValue. */
    method IncrementEventCount()
      modifies this
      ensures eventCount == Wrap32(old(eventCount) + 1)
    {
      eventCount := Wrap32(eventCount + 1);
    }

    /** Name and ToString() are both the stream's DataTypeName. */
    function Name(): seq<Byte>
    {
      dataTypeName
    }

    function ToString(): seq<Byte>
    {
      Name()
    }

    /** The stream as the decoder's state records it. */
    function Snapshot(): Channel
      reads this
    {
      Channel(streamIndex, flags, tagSize, dataTypeName, dataTypeId, semanticId, eventCount)
    }
  }

  class XefEvent {
    const eventStream: XefStream?
    const eventIndex: int
    const frameIndex: int
    const relativeTime: int          // ticks
    const fullDataSize: int
    const tagData: Option<seq<Byte>>
    const eventData: seq<Byte>
    const unknown: nat
    /** RawEventData and IsCompressed are never assigned. */
    const rawEventData: Option<seq<Byte>> := None
    const isCompressed: bool := false

    /**
     * The event takes its stream's current count as its index and counts
     * itself on the stream; an event without a stream has index 0.
     */
    constructor(eventStream: XefStream?, frameIndex: int, relativeTime: int, fullDataSize: int,
                tagData: Option<seq<Byte>>, eventData: seq<Byte>, unknown: nat)
      modifies eventStream
      ensures this.eventStream == eventStream && this.frameIndex == frameIndex
      ensures this.relativeTime == relativeTime && this.fullDataSize == fullDataSize
      ensures this.tagData == tagData && this.eventData == eventData && this.unknown == unknown
      ensures eventStream != null ==> eventIndex == old(eventStream.eventCount)
      ensures eventStream != null ==> eventStream.eventCount == Wrap32(old(eventStream.eventCount) + 1)
      ensures eventStream == null ==> eventIndex == 0
    {
      this.eventStream := eventStream;
      this.frameIndex := frameIndex;
      this.relativeTime := relativeTime;
      this.fullDataSize := fullDataSize;
      this.tagData := tagData;
      this.eventData := eventData;
      this.unknown := unknown;
      eventIndex := if eventStream != null then eventStream.eventCount else 0;
      new;
      if eventStream != null {
        eventStream.IncrementEventCount();
      }
    }

    /** TagDataSize reads through to the stream. */
    function TagDataSize(): int
      requires eventStream != null
    {
      eventStream.tagSize
    }

    function EventDataSize(): nat
    {
      |eventData|
    }

    function EventStreamSemanticId(): Guid
      requires eventStream != null
    {
      eventStream.semanticId
    }

    function EventStreamDataTypeId(): Guid
      requires eventStream != null
    {
      eventStream.dataTypeId
    }

    /**
     * Whether this event is the decoded value v, given the registry the
     * reader keeps: same stream object, same fields.
     */
    predicate IsValue(v: EventValue, streams: map<int, XefStream>)
    {
      (if v.stream.Some? then v.stream.value in streams && eventStream == streams[v.stream.value] else eventStream == null)
      && v.streamDataTypeId == (if eventStream != null then Some(eventStream.dataTypeId) else None)
      && eventIndex == v.eventIndex && frameIndex == v.frameIndex && relativeTime == v.relativeTime
      && fullDataSize == v.fullDataSize && tagData == v.tagData && eventData == v.eventData && unknown == v.unknown
    }

    /**
     * streamDataTypes.Contains(EventStreamDataTypeId): whether the event's
     * stream has one of the given type ids (an event without a stream has none).
     */
    predicate OfTypes(types: set<Guid>)
    {
      eventStream != null && eventStream.dataTypeId in types
    }

    /** The filter on objects and the filter on decoded values agree. */
    lemma OfTypesOfValue(v: EventValue, streams: map<int, XefStream>, types: set<Guid>)
      requires IsValue(v, streams)
      ensures OfTypes(types) <==> OfType(v, types)
    {
    }

    /**
     * What an event of a registered stream reports through its stream: the
     * tag size, semantic id and type id of the registry entry under the
     * record's index (the type id being the one the decoder assigned), and
     * the length of its payload.
     */
    lemma AccessorsOfValue(v: EventValue, streams: map<int, XefStream>)
      requires IsValue(v, streams) && v.stream.Some?
      ensures eventStream != null && v.stream.value in Channels(streams)
      ensures EventStreamDataTypeId() == v.streamDataTypeId.value == Channels(streams)[v.stream.value].dataTypeId
      ensures EventStreamSemanticId() == Channels(streams)[v.stream.value].semanticId
      ensures TagDataSize() == Channels(streams)[v.stream.value].tagSize
      ensures EventDataSize() == |v.eventData|
    {
      var k := v.stream.value;
      assert Channels(streams)[k] == streams[k].Snapshot();
    }

    /** A registry that keeps every entry keeps the event's value. */
    lemma IsValueExtends(v: EventValue, streams: map<int, XefStream>, more: map<int, XefStream>)
      requires IsValue(v, streams) && Extends(streams, more)
      ensures IsValue(v, more)
    {
      if v.stream.Some? {
        var k := v.stream.value;
        assert k in streams;
        assert forall j :: j in streams ==> j in more && more[j] == streams[j];
      }
    }
  }
}
