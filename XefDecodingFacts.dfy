/**
 * Properties of the XEF record grammar that both readers inherit: how the
 * header count becomes the footer index, what a record does to the
 * registry and to the flags, that the registry is never overwritten, what
 * the type filters return, where the unknown-record probes stop, and where
 * the seekable and the forward-only reader can tell apart.
 */
module XefDecodingFacts {
  import opened Wrappers
  import opened Bytes
  import opened DataConstants
  import opened XefDecoding

  // ----- header -----

  /**
   * The footer's index is the header's raw stream count (int.MaxValue when
   * the raw count is 0): the correction by one and the footer's +1 cancel,
   * in int arithmetic even at int.MinValue.
   */
  lemma FooterIsHeaderCount(raw: int)
    requires Int32Min <= raw <= Int32Max
    ensures FooterIndex(ReportedStreams(raw)) == (if raw == 0 then Int32Max else raw)
    ensures raw == 0 ==> ReportedStreams(raw) == Int32Max - 1
    ensures raw != 0 && raw != Int32Min ==> ReportedStreams(raw) == raw - 1
    ensures raw == Int32Min ==> ReportedStreams(raw) == Int32Max
  {
    var c := if raw == 0 then Int32Max else raw;
    if c == Int32Min {
      assert ReportedStreams(raw) == Wrap32(Int32Min - 1) == Int32Max;
      assert Wrap32(Int32Max + 1) == Int32Min;
    }
  }

  // ----- flags -----

  /** StreamError is only ever raised together with EndOfStream. */
  predicate FlagsConsistent(st: DecoderState)
  {
    st.streamError ==> st.endOfStream
  }

  /** Neither flag is ever cleared, and consistent flags stay consistent. */
  predicate FlagsKept(st: DecoderState, st': DecoderState)
  {
    (st.endOfStream ==> st'.endOfStream) && (st.streamError ==> st'.streamError)
    && (FlagsConsistent(st) ==> FlagsConsistent(st'))
  }

  // ----- the registry -----

  /** Two snapshots of one stream: everything but the event counter agrees. */
  predicate SameStream(a: Channel, b: Channel)
  {
    a.(eventCount := 0) == b.(eventCount := 0)
  }

  /** Registry b still holds every stream of registry a, as a described it. */
  predicate Keeps(a: map<int, Channel>, b: map<int, Channel>)
  {
    forall k :: k in a ==> k in b && SameStream(a[k], b[k])
  }

  lemma KeepsTransitive(a: map<int, Channel>, b: map<int, Channel>, c: map<int, Channel>)
    requires Keeps(a, b) && Keeps(b, c)
    ensures Keeps(a, c)
  {
  }

  /**
   * ReadDataEvent on the record at the cursor: an event takes its stream's
   * count as its index and the registry counts it on that stream and
   * nothing else; an event on an unregistered index has index 0 and
   * changes no count; a null result or an exception changes no count. An
   * IOException, and only it, raises StreamError, together with
   * EndOfStream, with the cursor at the end and a null result.
   */
  lemma {:induction false} RecordCountsItsStream(src: Source, st: DecoderState)
    requires st.pos <= |src.input|
    ensures var o := ReadRecord(src, st);
      if o.Returned? && o.value.Some? then
        var index := KeyAt(src.input, st.pos).index;
        o.value.value.eventIndex == (if index in st.channels then st.channels[index].eventCount else 0)
        && o.st.channels == Counted(st.channels, index)
      else o.st.channels == st.channels
    ensures var o := ReadRecord(src, st); Keeps(st.channels, o.st.channels) && FlagsKept(st, o.st)
    ensures var o := ReadRecord(src, st);
      o.st.streamError && !st.streamError ==>
        o.Returned? && o.value.None? && o.st.endOfStream && o.st.pos == |src.input|
  {
    if !st.endOfStream && st.pos + 24 <= |src.input| {
      var h := HeaderAt(src.input, st.pos);
      var tag := ReadTag(src, st.channels, h.key.index, st.pos + 24);
      if !(TagIsFrameIndex(st.channels, h.key.index) && TagLength(tag) < 4) && h.dataSize >= 0 {
        var data := Take(src.input, st.pos + 24 + TagLength(tag), h.dataSize);
        assert ReadRecord(src, st).value == Some(NewEvent(st.channels, h, tag, data));
        KeepsCounted(st.channels, h.key.index);
      }
    }
  }

  /**
   * Successive events on one registered stream take successive indices:
   * the second record's event index is one more than the first's.
   */
  lemma SuccessiveRecordsCount(src: Source, st: DecoderState, k: int)
    requires st.pos <= |src.input| && k in st.channels
    requires var o := ReadRecord(src, st); o.Returned? && o.value.Some? && o.value.value.stream == Some(k)
    requires var o := ReadRecord(src, st); var o2 := ReadRecord(src, o.st); o2.Returned? && o2.value.Some? && o2.value.value.stream == Some(k)
    ensures ReadRecord(src, ReadRecord(src, st).st).value.value.eventIndex == Wrap32(ReadRecord(src, st).value.value.eventIndex + 1)
  {
    var o := ReadRecord(src, st);
    RecordCountsItsStream(src, st);
    RecordCountsItsStream(src, o.st);
  }

  lemma KeepsCounted(channels: map<int, Channel>, index: int)
    ensures Keeps(channels, Counted(channels, index))
  {
  }

  /** A stream description reads records, which change counts but no stream. */
  lemma {:induction false} DescriptionKeeps(src: Source, st: DecoderState)
    requires st.pos <= |src.input|
    ensures var d := ReadDescription(src, st); Keeps(st.channels, d.st.channels) && FlagsKept(st, d.st)
  {
    var first := ReadRecord(src, st);
    RecordCountsItsStream(src, st);
    if first.Returned? && first.value.Some? {
      var e := first.value.value;
      if e.tagData.Some? && NameRecordFits(src.layout, e.tagData.value, e.eventData) {
        FromNameKeeps(src, first.st, first.last, e.tagData.value, e.eventData);
        KeepsTransitive(st.channels, first.st.channels,
                        DescriptionFromName(src, first.st, first.last, e.tagData.value, e.eventData).st.channels);
      }
    }
  }

  /** The rest of a description, from its name record on: the Guid record is an ordinary record. */
  lemma {:induction false} FromNameKeeps(src: Source, s: DecoderState, l: Option<EventValue>, tag: seq<Byte>, data: seq<Byte>)
    requires s.pos <= |src.input| && NameRecordFits(src.layout, tag, data)
    ensures var d := DescriptionFromName(src, s, l, tag, data); Keeps(s.channels, d.st.channels) && FlagsKept(s, d.st)
  {
    RecordCountsItsStream(src, SkipCompressedExtra(src, s, tag));
  }

  /**
   * GetNextEvent never overwrites a registered stream: every index it knew
   * before is still registered, with the same description. Descriptions
   * are only read for indices not yet registered. Neither flag is cleared,
   * and StreamError never appears without EndOfStream.
   */
  lemma {:induction false} NextEventKeepsRegistry(src: Source, st: DecoderState)
    requires st.pos <= |src.input|
    ensures var o := NextEvent(src, st); Keeps(st.channels, o.st.channels) && FlagsKept(st, o.st)
    decreases |src.input| - st.pos, if st.endOfStream then 0 else 1
  {
    if !st.endOfStream && st.pos + 4 <= |src.input| {
      var key := KeyAt(src.input, st.pos);
      if key.index == src.layout.unknownRecordIndex {
        var skip := SkipUnknown(src, st);
        if skip.Returned? {
          NextEventKeepsRegistry(src, skip.st);
        }
      } else if key.index == FooterIndex(src.reportedStreams) {
      } else if key.index !in st.channels {
        var d := ReadDescription(src, st);
        DescriptionKeeps(src, st);
        if d.Returned? {
          var s := d.st.(channels := d.st.channels[key.index := d.value]);
          assert Keeps(st.channels, s.channels);
          NextEventKeepsRegistry(src, s);
          KeepsTransitive(st.channels, s.channels, NextEvent(src, s).st.channels);
        }
      } else {
        RecordCountsItsStream(src, st);
      }
    }
  }

  /** Registering a description adds exactly the peeked index, with the described stream. */
  lemma RegistrationAddsOne(channels: map<int, Channel>, index: int, ch: Channel)
    requires index !in channels
    ensures channels[index := ch].Keys == channels.Keys + {index}
    ensures Keeps(channels, channels[index := ch]) && channels[index := ch][index] == ch
  {
  }

  // ----- end of stream -----

  /** Once EndOfStream is set, GetNextEvent reads nothing and returns null, and GetAllEvents collects nothing. */
  lemma AtEndNothingMore(src: Source, st: DecoderState, types: set<Guid>)
    requires st.pos <= |src.input| && st.endOfStream
    ensures NextEvent(src, st) == Returned(None, st, None)
    ensures NextEventOf(src, types, st) == Returned(None, st, None)
    ensures AllEvents(src, st) == Returned([], st, None)
  {
  }

  /** The loop of GetAllEvents, when it returns, returns at the end of the stream. */
  lemma {:induction false} AllEventsEndsAtEnd(src: Source, st: DecoderState)
    requires st.pos <= |src.input|
    ensures var o := AllEvents(src, st); o.Returned? ==> o.st.endOfStream
    decreases |src.input| - st.pos, if st.endOfStream then 0 else 1
  {
    if !st.endOfStream {
      var n := NextEvent(src, st);
      if n.Returned? {
        AllEventsEndsAtEnd(src, n.st);
      }
    }
  }

  // ----- filters -----

  /** The filtered GetNextEvent returns null or an event of one of the given types. */
  lemma {:induction false} NextEventOfMatches(src: Source, types: set<Guid>, st: DecoderState)
    requires st.pos <= |src.input|
    ensures var o := NextEventOf(src, types, st); o.Returned? && o.value.Some? ==> OfType(o.value.value, types)
    decreases |src.input| - st.pos, if st.endOfStream then 0 else 1
  {
    var n := NextEvent(src, st);
    if n.Returned? && n.value.Some? && !OfType(n.value.value, types) {
      NextEventOfMatches(src, types, n.st);
    }
  }

  /** The events of a list whose stream has one of the given types, in order. */
  function Only(vs: seq<EventValue>, types: set<Guid>): (r: seq<EventValue>)
    ensures |r| <= |vs|
    ensures forall e :: e in r ==> e in vs && OfType(e, types)
  {
    if vs == [] then [] else (if OfType(vs[0], types) then [vs[0]] else []) + Only(vs[1..], types)
  }

  lemma {:induction false} OnlyAppend(a: seq<EventValue>, b: seq<EventValue>, types: set<Guid>)
    ensures Only(a + b, types) == Only(a, types) + Only(b, types)
  {
    if a != [] {
      assert (a + b)[0] == a[0] && (a + b)[1..] == a[1..] + b;
      OnlyAppend(a[1..], b, types);
      var head := if OfType(a[0], types) then [a[0]] else [];
      calc {
        Only(a + b, types);
        head + Only(a[1..] + b, types);
        head + (Only(a[1..], types) + Only(b, types));
        (head + Only(a[1..], types)) + Only(b, types);
        Only(a, types) + Only(b, types);
      }
    } else {
      assert a + b == b;
    }
  }

  /** An outcome of GetAllEvents with its list filtered. */
  function OnlyOutcome(o: Outcome<seq<EventValue>>, types: set<Guid>): Outcome<seq<EventValue>>
  {
    match o
    case Returned(v, s, l) => Returned(Only(v, types), s, l)
    case Threw(f, s, l) => Threw(f, s, l)
  }

  /**
   * The filtered GetAllEvents is GetAllEvents with the other events left
   * out: same events in the same order, same exception, same final state.
   */
  lemma {:induction false} AllEventsOfFilters(src: Source, types: set<Guid>, st: DecoderState)
    requires st.pos <= |src.input|
    ensures AllEventsOf(src, types, st) == OnlyOutcome(AllEvents(src, st), types)
    decreases |src.input| - st.pos, if st.endOfStream then 0 else 1
  {
    if !st.endOfStream {
      var n := NextEvent(src, st);
      if n.Returned? {
        AllEventsOfFilters(src, types, n.st);
        var rest := AllEvents(src, n.st);
        var kept: seq<EventValue> := if n.value.Some? then [n.value.value] else [];
        if rest.Returned? {
          OnlyAppend(kept, rest.value, types);
          assert Only(kept, types) == (if n.value.Some? && OfType(n.value.value, types) then [n.value.value] else []);
        }
      }
    }
  }

  // ----- unknown records -----

  /**
   * ReadUnknownEvent stops at the first probe whose key is a valid index,
   * and at the last probe when neither earlier one is: a probe is passed
   * over only when its key is there and invalid.
   */
  lemma SkipUnknownStopsAtFirstValid(src: Source, st: DecoderState)
    requires st.pos <= |src.input|
    ensures var o, p0, p1, p2 := SkipUnknown(src, st), Probe(st.pos, 0), Probe(st.pos, 1), Probe(st.pos, 2);
      && (o.Returned? && o.st.pos != p0 ==> p0 + 4 <= |src.input| && !IsValidStreamIndex(src, KeyAt(src.input, p0).index))
      && (o.Returned? && o.st.pos == p2 ==> p1 + 4 <= |src.input| && !IsValidStreamIndex(src, KeyAt(src.input, p1).index))
      && (p0 + 4 <= |src.input| && IsValidStreamIndex(src, KeyAt(src.input, p0).index) ==> o.Returned? && o.st.pos == p0)
      && ((p1 + 4 <= |src.input| && !IsValidStreamIndex(src, KeyAt(src.input, p0).index)
           && IsValidStreamIndex(src, KeyAt(src.input, p1).index)) ==> o.Returned? && o.st.pos == p1)
      && ((p2 + 4 <= |src.input| && !IsValidStreamIndex(src, KeyAt(src.input, p0).index)
           && !IsValidStreamIndex(src, KeyAt(src.input, p1).index)) ==> o.Returned? && o.st.pos == p2)
  {
  }

  // ----- the two readers -----

  /**
   * The forward-only reader's peek cache matters to ReadUnknownEvent only
   * when a probed key ends the input exactly; otherwise both readers skip
   * an unknown record alike.
   */
  lemma SkipAgreesWithoutCache(src: Source, st: DecoderState)
    requires st.pos <= |src.input|
    requires Probe(st.pos, 0) + 4 != |src.input| && Probe(st.pos, 1) + 4 != |src.input|
    ensures SkipUnknown(src, st) == SkipUnknown(src.(cachesPeek := !src.cachesPeek), st)
  {
  }

  /**
   * The seekable reader's extra test (Position == Length) changes only
   * EndOfStream, and only when a record ends the input: both readers
   * decode the same event, the same cursor and the same registry.
   */
  lemma {:induction false} RecordAgreesWithoutLengthCheck(src: Source, st: DecoderState)
    requires st.pos <= |src.input|
    ensures var o, o' := ReadRecord(src, st), ReadRecord(src.(checksLength := !src.checksLength), st);
      o.Returned? == o'.Returned? && o.st.pos == o'.st.pos && o.st.channels == o'.st.channels
      && o.st.streamError == o'.st.streamError && o.last == o'.last
      && (o.Returned? ==> o.value == o'.value) && (o.Threw? ==> o.fault == o'.fault)
      && (o.st.endOfStream != o'.st.endOfStream ==> o.Returned? && o.value.Some? && o.st.pos == |src.input|)
  {
    var src' := src.(checksLength := !src.checksLength);
    if !st.endOfStream && st.pos + 24 <= |src.input| {
      var h := HeaderAt(src.input, st.pos);
      assert ReadRecord(src, st) == RecordAfterHeader(src, st, h);
      assert ReadRecord(src', st) == RecordAfterHeader(src', st, h);
      var tag := ReadTag(src, st.channels, h.key.index, st.pos + 24);
      assert tag == ReadTag(src', st.channels, h.key.index, st.pos + 24);
      if !(TagIsFrameIndex(st.channels, h.key.index) && TagLength(tag) < 4) {
        assert RecordAfterHeader(src, st, h) == RecordAfterTag(src, st, h, tag);
        assert RecordAfterHeader(src', st, h) == RecordAfterTag(src', st, h, tag);
      }
    }
  }
}
